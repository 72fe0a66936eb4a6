/** Resolution of `fabric8-value` parameter properties (`replaceParameterVariable`
    and `applyParameterValueProperties`): every variable `{{TYPE/NAME[PATH]}}`
    in the property's text is replaced, literally, by the host of the route
    NAME when TYPE is `route` and PATH is `.spec.host`, and by the empty string
    otherwise; the text around the variables is kept. */
module Resolver {
  import opened Base
  import opened VariablePattern
  import Parameters
  import Urls

  /** A route of the project: its name and its `spec.host`, which may be null. */
  datatype Route = Route(name: string, host: Option<string>)

  /** Route `i` is the first route called `name` that has a host. */
  predicate FirstHosted(routes: seq<Route>, name: string, i: int) {
    0 <= i < |routes| && routes[i].name == name && routes[i].host.Some?
    && forall j :: 0 <= j < i ==> !(routes[j].name == name && routes[j].host.Some?)
  }

  /** The host of a route called `name` that has one: the stream's `findAny`,
      which on this sequential stream yields the first such route. */
  function RouteHost(routes: seq<Route>, name: string): (r: Option<string>)
    ensures r.Some? ==> exists i :: FirstHosted(routes, name, i) && routes[i].host == r
    ensures r.None? <==> forall i :: 0 <= i < |routes| && routes[i].name == name ==> routes[i].host.None?
  {
    if |routes| == 0 then None
    else if routes[0].name == name && routes[0].host.Some? then
      assert FirstHosted(routes, name, 0);
      routes[0].host
    else
      var r := RouteHost(routes[1..], name);
      assert forall i :: 1 <= i < |routes| ==> routes[i] == routes[1..][i - 1];
      assert r.Some? ==> exists i :: FirstHosted(routes, name, i) && routes[i].host == r by {
        if r.Some? {
          var i :| FirstHosted(routes[1..], name, i) && routes[1..][i].host == r;
          assert FirstHosted(routes, name, i + 1);
        }
      }
      r
  }

  const RouteType: string := "route"
  const HostPath: string := ".spec.host"

  /** A variable `{{kind/name[path]}}`. */
  datatype Variable = Variable(kind: string, name: string, path: string)

  /** What a variable is replaced by: the host of a route it names, when it
      is a `route/NAME[.spec.host]` variable and such a route exists, and the
      empty string otherwise; a non-empty value always comes from a route. */
  function VariableValue(v: Variable, routes: seq<Route>): (r: string)
    ensures !(v.kind == RouteType && v.path == HostPath) ==> r == ""
    ensures r != "" ==> exists i :: 0 <= i < |routes| && routes[i] == Route(v.name, Some(r))
    ensures v.kind == RouteType && v.path == HostPath && (exists i :: FirstHosted(routes, v.name, i)) ==>
              exists i :: FirstHosted(routes, v.name, i) && routes[i].host == Some(r)
    ensures v.kind == RouteType && v.path == HostPath && (forall i :: !FirstHosted(routes, v.name, i)) ==> r == ""
  {
    if v.kind == RouteType && v.path == HostPath then RouteHost(routes, v.name).GetOr("") else ""
  }

  /** The text of a variable. */
  function VariableText(v: Variable): string {
    "{{" + (v.kind + ("/" + (v.name + ("[" + (v.path + "]}}")))))
  }

  /** A property text cut at its variables: literal text, then a variable,
      then the rest, ending in literal text. */
  datatype Template = Tail(text: string) | Segment(text: string, variable: Variable, rest: Template)

  /** The text a template stands for. */
  function Source(p: Template): string {
    match p
    case Tail(s) => s
    case Segment(s, v, rest) => s + VariableText(v) + Source(rest)
  }

  /** The variable a match denotes. */
  function VariableOf(t: string, m: Match): Variable
    requires Delimits(t, m)
  {
    Variable(t[m.start + 2..m.slash], t[m.slash + 1..m.bracket], t[m.bracket + 1..m.close])
  }

  /** `t[from..]` cut at the matches `find()` reports in turn. */
  function Tokenize(t: string, from: nat): Template
    requires from <= |t|
    decreases |t| - from
  {
    match FindFrom(t, from)
    case None => Tail(t[from..])
    case Some(m) => Segment(t[from..m.start], VariableOf(t, m), Tokenize(t, m.End()))
  }

  /** Adjacent slices join. */
  lemma SliceJoin(t: string, i: nat, j: nat, k: nat)
    requires i <= j <= k <= |t|
    ensures t[i..k] == t[i..j] + t[j..k]
  {
  }

  /** A suffix cut in three. */
  lemma SliceSplit(t: string, i: nat, j: nat, k: nat)
    requires i <= j <= k <= |t|
    ensures t[i..] == t[i..j] + t[j..k] + t[k..]
  {
  }

  /** The part of a match from its `[` on prints back as `[PATH]}}`. */
  lemma BracketSource(t: string, m: Match)
    requires Delimits(t, m)
    ensures t[m.bracket..m.End()] == "[" + (VariableOf(t, m).path + "]}}")
  {
    var e := m.End();
    assert t[m.close..e] == "]}}";
    SliceJoin(t, m.bracket + 1, m.close, e);
    assert t[m.bracket + 1..e] == VariableOf(t, m).path + "]}}";
    SliceJoin(t, m.bracket, m.bracket + 1, e);
    assert t[m.bracket..m.bracket + 1] == "[";
  }

  /** The part of a match from its `/` on prints back as `/NAME[PATH]}}`. */
  lemma SlashSource(t: string, m: Match)
    requires Delimits(t, m)
    ensures t[m.slash..m.End()] == "/" + (VariableOf(t, m).name + ("[" + (VariableOf(t, m).path + "]}}")))
  {
    var e := m.End();
    BracketSource(t, m);
    SliceJoin(t, m.slash + 1, m.bracket, e);
    assert t[m.slash + 1..e] == VariableOf(t, m).name + ("[" + (VariableOf(t, m).path + "]}}"));
    SliceJoin(t, m.slash, m.slash + 1, e);
    assert t[m.slash..m.slash + 1] == "/";
  }

  /** A matched variable prints back as the text it was matched in. */
  lemma VariableSource(t: string, m: Match)
    requires Delimits(t, m)
    ensures VariableText(VariableOf(t, m)) == t[m.start..m.End()]
  {
    var v := VariableOf(t, m);
    var e := m.End();
    SlashSource(t, m);
    var fromSlash := "/" + (v.name + ("[" + (v.path + "]}}")));
    SliceJoin(t, m.start + 2, m.slash, e);
    var afterOpen := v.kind + fromSlash;
    assert t[m.start + 2..e] == afterOpen;
    SliceJoin(t, m.start, m.start + 2, e);
    assert t[m.start..m.start + 2] == "{{";
  }

  /** Tokenizing loses nothing: the template prints back to the text. */
  lemma {:induction false} TokenizeRoundTrip(t: string, from: nat)
    requires from <= |t|
    ensures Source(Tokenize(t, from)) == t[from..]
    decreases |t| - from
  {
    match FindFrom(t, from)
    case None =>
    case Some(m) =>
      var rest := Tokenize(t, m.End());
      assert Source(Tokenize(t, from)) == t[from..m.start] + VariableText(VariableOf(t, m)) + Source(rest);
      TokenizeRoundTrip(t, m.End());
      VariableSource(t, m);
      SliceSplit(t, from, m.start, m.End());
  }

  /** The template with every variable replaced by its value. */
  function Render(p: Template, routes: seq<Route>): string {
    match p
    case Tail(s) => s
    case Segment(s, v, rest) => s + VariableValue(v, routes) + Render(rest, routes)
  }

  /** The resolved text of a `fabric8-value` property: every match, in the
      order `find()` reports them, replaced by its variable's value. A text
      in which `find()` reports nothing is unchanged, and otherwise the
      text before the first match is kept. */
  function Resolve(t: string, routes: seq<Route>): (r: string)
    ensures FindFrom(t, 0).None? ==> r == t
    ensures FindFrom(t, 0).Some? ==>
              var m := FindFrom(t, 0).value;
              |r| >= m.start && r[..m.start] == t[..m.start]
  {
    Render(Tokenize(t, 0), routes)
  }

  lemma AppendAssociates(a: string, b: string, c: string, d: string)
    ensures a + (b + c + d) == a + b + c + d
  {
  }

  /** One step of the replacement loop: the literal text up to the match,
      the variable's value, then the rest. */
  lemma RenderStep(t: string, from: nat, m: Match, routes: seq<Route>)
    requires from <= |t| && FindFrom(t, from) == Some(m)
    ensures Render(Tokenize(t, from), routes)
         == t[from..m.start] + VariableValue(VariableOf(t, m), routes) + Render(Tokenize(t, m.End()), routes)
  {
  }

  /** The `find` / `appendReplacement` / `appendTail` loop of
      `replaceParameterVariable`. */
  method ReplaceVariables(value: string, routes: seq<Route>) returns (r: string)
    ensures r == Resolve(value, routes)
  {
    var buffer := "";
    var position := 0;
    var found := FindFrom(value, 0);
    while found.Some?
      invariant position <= |value|
      invariant found == FindFrom(value, position)
      invariant buffer + Render(Tokenize(value, position), routes) == Resolve(value, routes)
      decreases |value| - position
    {
      var m := found.value;
      var variable := VariableOf(value, m);
      var propertyValue := "";
      if variable.kind == RouteType && variable.path == HostPath {
        propertyValue := RouteHost(routes, variable.name).GetOr(propertyValue);
      }
      RenderStep(value, position, m, routes);
      AppendAssociates(buffer, value[position..m.start], propertyValue, Render(Tokenize(value, m.End()), routes));
      buffer := buffer + value[position..m.start] + propertyValue;
      position := m.End();
      found := FindFrom(value, position);
    }
    r := buffer + value[position..];
  }

  /** No `{{` starts in `t[from..]`. */
  predicate NoOpening(t: string, from: nat) {
    forall k :: from <= k < |t| - 1 ==> !(t[k] == '{' && t[k + 1] == '{')
  }

  /** Without a `{{`, `find()` reports nothing. */
  lemma {:induction false} NothingFound(t: string, from: nat)
    requires from <= |t| && NoOpening(t, from)
    ensures FindFrom(t, from).None?
    decreases |t| - from
  {
    if from < |t| {
      NothingFound(t, from + 1);
    }
  }

  /** A text with no `{{` is resolved to itself. */
  lemma ResolveWithoutVariables(t: string, routes: seq<Route>)
    requires NoOpening(t, 0)
    ensures Resolve(t, routes) == t
  {
    NothingFound(t, 0);
  }

  /** No line terminator in `s`. */
  predicate SingleLine(s: string) {
    forall k :: 0 <= k < |s| ==> !IsLineTerminator(s[k])
  }

  /** A variable whose text the pattern splits back into the same three
      groups: group 1 holds no `/`, group 2 no `[`, and no group spans lines. */
  predicate Parsable(v: Variable) {
    SingleLine(v.kind) && SingleLine(v.name) && SingleLine(v.path)
    && Lacks(v.kind, '/') && Lacks(v.name, '[')
  }

  /** Where the pattern matches the text of a variable. */
  function MatchOf(v: Variable): Match {
    var slash := 2 + |v.kind|;
    var bracket := slash + 1 + |v.name|;
    Match(0, slash, bracket, bracket + 1 + |v.path|)
  }

  /** Where each part of a variable's text sits. */
  lemma VariableTextShape(v: Variable)
    ensures var t := VariableText(v);
            var m := MatchOf(v);
            |t| == m.close + 3 && Delimits(t, m)
            && (forall k :: 2 <= k < m.slash ==> t[k] == v.kind[k - 2])
            && (forall k :: m.slash < k < m.bracket ==> t[k] == v.name[k - m.slash - 1])
            && (forall k :: m.bracket < k < m.close ==> t[k] == v.path[k - m.bracket - 1])
  {
    var closing := v.path + "]}}";
    var bracketed := "[" + closing;
    var named := v.name + bracketed;
    var slashed := "/" + named;
    var kinded := v.kind + slashed;
    assert forall k :: 0 <= k < |v.path| ==> closing[k] == v.path[k];
    assert forall k :: 0 <= k < |v.name| ==> named[k] == v.name[k];
    assert forall k :: 0 <= k < |v.kind| ==> kinded[k] == v.kind[k];
  }

  /** The text of a parsable variable matches at its start, with the
      variable's own groups. */
  lemma VariableTextMatches(v: Variable)
    requires Parsable(v)
    ensures IsMatch(VariableText(v), MatchOf(v))
    ensures VariableOf(VariableText(v), MatchOf(v)) == v
  {
    var t := VariableText(v);
    var m := MatchOf(v);
    VariableTextShape(v);
    assert t[m.start + 2..m.slash] == v.kind;
    assert t[m.slash + 1..m.bracket] == v.name;
    assert t[m.bracket + 1..m.close] == v.path;
    forall k | 0 <= k < |t|
      ensures !IsLineTerminator(t[k])
    {
      if 2 <= k < m.slash {
        assert t[k] == v.kind[k - 2];
      } else if m.slash < k < m.bracket {
        assert t[k] == v.name[k - m.slash - 1];
      } else if m.bracket < k < m.close {
        assert t[k] == v.path[k - m.bracket - 1];
      }
    }
  }

  /** `find()` reports the variable's own match on its text. */
  lemma VariableTextFound(v: Variable)
    requires Parsable(v)
    ensures FindFrom(VariableText(v), 0) == Some(MatchOf(v))
  {
    var t := VariableText(v);
    var m := MatchOf(v);
    VariableTextMatches(v);
    VariableTextShape(v);
    MatchAtPreferred(t, 0, m);
    var found := MatchAt(t, 0).value;
  }

  /** A text that is one parsable variable resolves to that variable's value. */
  lemma SingleVariable(v: Variable, routes: seq<Route>)
    requires Parsable(v)
    ensures Resolve(VariableText(v), routes) == VariableValue(v, routes)
  {
    var t := VariableText(v);
    var m := MatchOf(v);
    VariableTextFound(v);
    VariableTextMatches(v);
    assert m.End() == |t|;
    assert MatchAt(t, |t|).None?;
    assert Tokenize(t, |t|) == Tail("");
    assert Tokenize(t, 0) == Segment("", v, Tail(""));
    var value := VariableValue(v, routes);
    assert Render(Segment("", v, Tail("")), routes) == "" + value + "";
    assert "" + value + "" == value;
  }

  /** The host comes from the first route of that name that has one. */
  lemma RouteHostExample(routes: seq<Route>)
    requires routes == [Route("b", Some("b.io")), Route("a", None), Route("a", Some("a.io"))]
    ensures RouteHost(routes, "a") == Some("a.io")
  {
    assert routes[0].name != "a";
    assert routes[1..] == [Route("a", None), Route("a", Some("a.io"))];
    assert routes[1..][1..] == [Route("a", Some("a.io"))];
    assert RouteHost(routes[1..][1..], "a") == Some("a.io");
    assert RouteHost(routes[1..], "a") == Some("a.io");
  }

  /** `{{route/a[.spec.host]}}` splits back into its groups. */
  lemma RouteVariableParsable()
    ensures Parsable(Variable(RouteType, "a", HostPath))
  {
    assert SingleLine(RouteType) && SingleLine("a") && SingleLine(HostPath);
  }

  /** The documented form: the text `{{route/a[.spec.host]}}` becomes the
      host of the first route called `a` that has one. */
  lemma RouteVariableExample(routes: seq<Route>)
    requires routes == [Route("b", Some("b.io")), Route("a", None), Route("a", Some("a.io"))]
    ensures Resolve(VariableText(Variable(RouteType, "a", HostPath)), routes) == "a.io"
  {
    RouteVariableParsable();
    SingleVariable(Variable(RouteType, "a", HostPath), routes);
    RouteHostExample(routes);
  }

  /** The text of a variable without its closing `]}}`. */
  function Opening(v: Variable): string {
    "{{" + (v.kind + ("/" + (v.name + ("[" + v.path))))
  }

  lemma OpeningCloses(v: Variable)
    ensures VariableText(v) == Opening(v) + "]}}"
  {
  }

  /** Text appended to a variable's text reads as part of its path. */
  lemma AppendToPath(v: Variable, s: string)
    ensures VariableText(v) + (s + "]}}") == VariableText(Variable(v.kind, v.name, v.path + "]}}" + s))
  {
  }

  lemma SingleLineAppend(a: string, b: string)
    requires SingleLine(a) && SingleLine(b)
    ensures SingleLine(a + b)
  {
    forall k | 0 <= k < |a + b|
      ensures !IsLineTerminator((a + b)[k])
    {
      if k >= |a| {
        assert (a + b)[k] == b[k - |a|];
      }
    }
  }

  /** Group 3 is greedy: two variables on one line are read as one variable
      whose path runs from the first `[` to the last `]}}`. */
  lemma TwoVariablesOnOneLine(a: Variable, b: Variable, routes: seq<Route>)
    requires Parsable(a) && Parsable(b)
    ensures var merged := Variable(a.kind, a.name, a.path + "]}}" + Opening(b));
            Resolve(VariableText(a) + VariableText(b), routes) == VariableValue(merged, routes)
            && merged.path != a.path
  {
    var merged := Variable(a.kind, a.name, a.path + "]}}" + Opening(b));
    OpeningCloses(b);
    AppendToPath(a, Opening(b));
    assert SingleLine(Opening(b)) by {
      SingleLineAppend("[", b.path);
      SingleLineAppend(b.name, "[" + b.path);
      SingleLineAppend("/", b.name + ("[" + b.path));
      SingleLineAppend(b.kind, "/" + (b.name + ("[" + b.path)));
      SingleLineAppend("{{", b.kind + ("/" + (b.name + ("[" + b.path))));
    }
    SingleLineAppend(a.path, "]}}");
    SingleLineAppend(a.path + "]}}", Opening(b));
    SingleVariable(merged, routes);
  }

  /** Two route variables on one line both vanish. */
  lemma TwoRouteVariablesVanish(routes: seq<Route>)
    ensures Resolve(VariableText(Variable(RouteType, "a", HostPath))
                    + VariableText(Variable(RouteType, "b", HostPath)), routes) == ""
  {
    RouteVariableParsable();
    assert Parsable(Variable(RouteType, "b", HostPath)) by {
      assert SingleLine(RouteType) && SingleLine("b") && SingleLine(HostPath);
    }
    TwoVariablesOnOneLine(Variable(RouteType, "a", HostPath), Variable(RouteType, "b", HostPath), routes);
  }

  /** The additional property holding a text with variables. */
  const Fabric8Value: string := "fabric8-value"

  /** Whether `replaceParameterVariable` resolves a parameter's property:
      it has a `fabric8-value` property and a null value. */
  predicate Resolvable(p: Parameters.Parameter) {
    Fabric8Value in p.properties && p.value.None?
  }

  /** `replaceParameterVariable`: the resolved `fabric8-value` text of a
      parameter that has the property and no value; its own value otherwise. */
  function ReplaceParameterVariable(p: Parameters.Parameter, routes: seq<Route>): (r: Option<string>)
    ensures p.value.Some? ==> r == p.value
    ensures r.None? <==> p.value.None? && Fabric8Value !in p.properties
    ensures Resolvable(p) ==> r == Some(Resolve(p.properties[Fabric8Value], routes))
  {
    if Resolvable(p) then Some(Resolve(p.properties[Fabric8Value], routes)) else p.value
  }

  /** `applyParameterValueProperties`: every parameter rebuilt with the value
      `replaceParameterVariable` gives it, in order. */
  function ApplyParameterValueProperties(ps: seq<Parameters.Parameter>, routes: seq<Route>)
    : (r: seq<Parameters.Parameter>)
    ensures |r| == |ps|
    ensures forall i :: 0 <= i < |ps| ==>
              r[i].name == ps[i].name && r[i].properties == ps[i].properties
    ensures forall i :: 0 <= i < |ps| && ps[i].value.Some? ==> r[i] == ps[i]
    ensures forall i :: 0 <= i < |ps| ==> (r[i].value.Some? <==> ps[i].value.Some? || Fabric8Value in ps[i].properties)
    decreases |ps|
  {
    if |ps| == 0 then []
    else
      var p := ps[0];
      [p.(value := ReplaceParameterVariable(p, routes))] + ApplyParameterValueProperties(ps[1..], routes)
  }

  /** A parameter that did not need resolving comes out as it went in. */
  lemma ApplyKeepsUnresolvable(ps: seq<Parameters.Parameter>, routes: seq<Route>, i: nat)
    requires i < |ps| && !Resolvable(ps[i])
    ensures ApplyParameterValueProperties(ps, routes)[i] == ps[i]
  {
  }

  /** A parameter that needed resolving gets its resolved property text. */
  lemma {:induction false} ApplyResolves(ps: seq<Parameters.Parameter>, routes: seq<Route>, i: nat)
    requires i < |ps| && Resolvable(ps[i])
    ensures ApplyParameterValueProperties(ps, routes)[i].value
         == Some(Resolve(ps[i].properties[Fabric8Value], routes))
    decreases i
  {
    if i > 0 {
      assert ps[1..][i - 1] == ps[i];
      ApplyResolves(ps[1..], routes, i - 1);
    }
  }

  /** Applying the properties a second time changes nothing: every resolved
      parameter now has a value. */
  lemma ApplyIdempotent(ps: seq<Parameters.Parameter>, routes: seq<Route>)
    ensures var once := ApplyParameterValueProperties(ps, routes);
            ApplyParameterValueProperties(once, routes) == once
  {
    var once := ApplyParameterValueProperties(ps, routes);
    var twice := ApplyParameterValueProperties(once, routes);
    forall i | 0 <= i < |once|
      ensures twice[i] == once[i]
    {
      if once[i].value.None? {
        assert !Resolvable(once[i]);
        ApplyKeepsUnresolvable(once, routes, i);
      }
    }
  }

  /** After resolution, the value map can be built exactly when every
      parameter had a value or a `fabric8-value` property, and names are
      distinct. */
  lemma ApplyThenMap(ps: seq<Parameters.Parameter>, routes: seq<Route>)
    ensures var applied := ApplyParameterValueProperties(ps, routes);
            Parameters.ToValueMap(applied).Success?
            <==> (forall i :: 0 <= i < |ps| ==> ps[i].value.Some? || Fabric8Value in ps[i].properties)
                 && Parameters.DistinctNames(ps)
  {
    var applied := ApplyParameterValueProperties(ps, routes);
    Parameters.ToValueMapDefined(applied);
    assert Parameters.DistinctNames(applied) <==> Parameters.DistinctNames(ps);
  }

  /** Parameters with values and no properties are left as they are. */
  lemma ApplyToPlain(ps: seq<Parameters.Parameter>, routes: seq<Route>)
    requires Parameters.Plain(ps)
    ensures ApplyParameterValueProperties(ps, routes) == ps
  {
    var applied := ApplyParameterValueProperties(ps, routes);
    forall i | 0 <= i < |ps|
      ensures applied[i] == ps[i]
    {
    }
  }

  /** The parameters `getParameters` builds carry no properties, so
      resolution leaves them as they are. */
  lemma ApplyToBaseParameters(project: string, source: Parameters.SourceUri, contextDir: Option<string>,
                              console: Urls.Url, millis: nat, routes: seq<Route>)
    requires source.path.Some?
    ensures var ps := Parameters.GetParameters(project, source, contextDir, console, millis).value;
            ApplyParameterValueProperties(ps, routes) == ps
  {
    Parameters.GetParametersPlain(project, source, contextDir, console, millis);
    ApplyToPlain(Parameters.GetParameters(project, source, contextDir, console, millis).value, routes);
  }
}
