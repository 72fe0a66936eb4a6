/** `getRepositoryName`: the short name of a Git repository, taken from the
    path of its URI. Trailing slashes are stripped, the text after the last
    remaining slash is kept, and then every trailing character that is one of
    `.`, `g`, `i`, `t` is stripped: `stripEnd` strips a SET of characters, not
    the suffix `.git`. */
module Repository {
  import opened Base

  /** `StringUtils.stripEnd(s, chars)`: drop trailing characters in `chars`. */
  function StripEnd(s: string, chars: set<char>): (r: string)
    ensures |r| <= |s| && r == s[..|r|]
    ensures |r| == 0 || r[|r| - 1] !in chars
    ensures forall k :: |r| <= k < |s| ==> s[k] in chars
    decreases |s|
  {
    if |s| > 0 && s[|s| - 1] in chars then StripEnd(s[..|s| - 1], chars) else s
  }

  /** `String.lastIndexOf(c)`: the last position of `c`, or -1. */
  function LastIndexOf(s: string, c: char): (r: int)
    ensures -1 <= r < |s|
    ensures r >= 0 ==> s[r] == c
    ensures forall k :: r < k < |s| ==> s[k] != c
    decreases |s|
  {
    if |s| == 0 then -1
    else if s[|s| - 1] == c then |s| - 1
    else LastIndexOf(s[..|s| - 1], c)
  }

  /** The characters `stripEnd(substring, ".git")` removes. */
  const GitSuffixChars: set<char> := {'.', 'g', 'i', 't'}

  /** The text after the last slash once trailing slashes are stripped. */
  function LastSegment(p: string): (r: string)
    ensures Lacks(r, '/')
  {
    var trimmed := StripEnd(p, {'/'});
    trimmed[LastIndexOf(trimmed, '/') + 1..]
  }

  /** The repository name of a URI whose path is `path`; `None` is the null
      path of an opaque URI, on which `stripEnd` returns null and
      `lastIndexOf` raises a `NullPointerException`. */
  function RepositoryName(path: Option<string>): (r: Result<string>)
    ensures r.Failure? <==> path.None?
    ensures r.Failure? ==> r.error == NullPointer
    ensures r.Success? ==> Lacks(r.value, '/')
    ensures r.Success? ==> |r.value| == 0 || r.value[|r.value| - 1] !in GitSuffixChars
  {
    match path
    case None => Failure(NullPointer)
    case Some(p) =>
      Success(StripEnd(LastSegment(p), GitSuffixChars))
  }

  /** A path made of a directory, a name, a tail of `.git` characters and
      trailing slashes yields the name: the partner of `RepositoryName`. */
  lemma RepositoryNameOf(dir: string, name: string, tail: string, slashes: string)
    requires |name| + |tail| > 0
    requires Lacks(name, '/')
    requires |name| == 0 || name[|name| - 1] !in GitSuffixChars
    requires AllIn(tail, GitSuffixChars)
    requires AllIn(slashes, {'/'})
    ensures RepositoryName(Some(dir + "/" + (name + tail) + slashes)) == Success(name)
  {
    LastSegmentOf(dir, name + tail, slashes);
    SegmentOf(name, tail);
  }

  /** A name followed by `.git` characters: no slash, and stripping gives the name. */
  lemma SegmentOf(name: string, tail: string)
    requires |name| + |tail| > 0
    requires Lacks(name, '/')
    requires |name| == 0 || name[|name| - 1] !in GitSuffixChars
    requires AllIn(tail, GitSuffixChars)
    ensures Lacks(name + tail, '/')
    ensures StripEnd(name + tail, GitSuffixChars) == name
  {
    var segment := name + tail;
    forall k | 0 <= k < |segment|
      ensures segment[k] != '/'
    {
      if k >= |name| {
        assert segment[k] == tail[k - |name|];
      }
    }
    StripTail(name, tail, GitSuffixChars);
  }

  /** A tail made only of stripped characters, after a body that does not end
      in one, is stripped exactly: the partner of `StripEnd`. */
  lemma {:induction false} StripTail(body: string, tail: string, chars: set<char>)
    requires |body| == 0 || body[|body| - 1] !in chars
    requires AllIn(tail, chars)
    ensures StripEnd(body + tail, chars) == body
    decreases |tail|
  {
    if |tail| == 0 {
      assert body + tail == body;
    } else {
      var shorter := tail[..|tail| - 1];
      assert (body + tail)[..|body + tail| - 1] == body + shorter;
      StripTail(body, shorter, chars);
    }
  }

  /** The last slash of `dir + "/" + segment` is the one before `segment`
      when `segment` has none. */
  lemma {:induction false} CutAtSlash(dir: string, segment: string)
    requires Lacks(segment, '/')
    ensures LastIndexOf(dir + "/" + segment, '/') == |dir|
    decreases |segment|
  {
    if |segment| == 0 {
      assert dir + "/" + segment == dir + "/";
    } else {
      var shorter := segment[..|segment| - 1];
      assert (dir + "/" + segment)[..|dir + "/" + segment| - 1] == dir + "/" + shorter;
      CutAtSlash(dir, shorter);
    }
  }

  /** Stripping the slashes and cutting at the last slash recovers a final
      path segment that has no slash. */
  lemma LastSegmentOf(dir: string, segment: string, slashes: string)
    requires |segment| > 0
    requires Lacks(segment, '/')
    requires AllIn(slashes, {'/'})
    ensures LastSegment(dir + "/" + segment + slashes) == segment
  {
    var body := dir + "/" + segment;
    assert body[|body| - 1] == segment[|segment| - 1];
    StripTail(body, slashes, {'/'});
    CutAtSlash(dir, segment);
    assert body[|dir| + 1..] == segment;
  }

  /** A path without a slash is its own last segment (`lastIndexOf` gives
      -1, so `substring(0)` keeps it whole): only its `.git` characters are
      stripped. */
  lemma RepositoryNameWithoutSlash(path: string)
    requires Lacks(path, '/')
    ensures RepositoryName(Some(path)) == Success(StripEnd(path, GitSuffixChars))
  {
    var trimmed := StripEnd(path, {'/'});
    assert trimmed == path;
    assert LastIndexOf(trimmed, '/') == -1;
    assert trimmed[0..] == path;
  }

  /** A path that is empty or only slashes has no name. */
  lemma RepositoryNameOfSlashes(path: string)
    requires AllIn(path, {'/'})
    ensures RepositoryName(Some(path)) == Success("")
  {
    var trimmed := StripEnd(path, {'/'});
    assert |trimmed| == 0 by {
      if |trimmed| > 0 {
        assert trimmed[|trimmed| - 1] == path[|trimmed| - 1];
      }
    }
  }

  /** The facts about the example texts that the examples rely on. */
  lemma ExampleParts()
    ensures AllIn(".git", GitSuffixChars) && AllIn("igit", GitSuffixChars) && AllIn("/", {'/'}) && AllIn("", {'/'})
    ensures Lacks("app", '/') && Lacks("d", '/') && Lacks("bar", '/')
    ensures 'p' !in GitSuffixChars && 'd' !in GitSuffixChars && 'r' !in GitSuffixChars
    ensures "/foo" + "/" + ("bar" + "") + "" == "/foo/bar"
    ensures "/org" + "/" + ("app" + ".git") + "/" == "/org/app.git/"
    ensures "/org" + "/" + ("d" + "igit") + "" == "/org/digit"
  {
    assert "/org" + "/" + ("app" + ".git") + "/" == "/org/app.git/" by {
      assert "app" + ".git" == "app.git";
      assert "/org" + "/" == "/org/";
      assert "/org/" + "app.git" == "/org/app.git";
    }
  }

  /** The documented example `https://github.com/foo/bar`. */
  lemma RepositoryNameOfDocumentedExample()
    ensures RepositoryName(Some("/foo/bar")) == Success("bar")
  {
    ExampleParts();
    RepositoryNameOf("/foo", "bar", "", "");
  }

  /** A `.git` suffix and trailing slashes are dropped. */
  lemma RepositoryNameOfGitUri()
    ensures RepositoryName(Some("/org/app.git/")) == Success("app")
  {
    ExampleParts();
    RepositoryNameOf("/org", "app", ".git", "/");
  }

  /** Stripping a character set also eats into the name itself. */
  lemma RepositoryNameOverStrips()
    ensures RepositoryName(Some("/org/digit")) == Success("d")
  {
    ExampleParts();
    RepositoryNameOf("/org", "d", "igit", "");
  }
}
