/** The one regular expression the service uses for parameter variables,
    `\{\{(.*?)/(.*?)\[(.*)\]\}\}`, matched the way `java.util.regex.Matcher.find`
    matches it: at the leftmost start that admits a match, with the two lazy
    groups as short and the greedy third group as long as possible. `.` does
    not match a line terminator, so a match never spans lines. */
module VariablePattern {
  import opened Base

  /** The characters `.` does not match without `DOTALL`. */
  predicate IsLineTerminator(c: char) {
    c == '\n' || c == '\r' || c == '\U{0085}' || c == '\U{2028}' || c == '\U{2029}'
  }

  /** A match: where `{{` starts, where the `/` ending group 1 and the `[`
      ending group 2 are, and where the closing `]}}` starts. */
  datatype Match = Match(start: nat, slash: nat, bracket: nat, close: nat) {
    /** The first position after the match. */
    function End(): nat { close + 3 }
  }

  /** No line terminator in `t[lo..hi]`. */
  predicate OnOneLine(t: string, lo: nat, hi: nat)
    requires lo <= hi <= |t|
  {
    forall k :: lo <= k < hi ==> !IsLineTerminator(t[k])
  }

  /** `t[i..]` starts with `]}}`. */
  predicate ClosesAt(t: string, i: nat) {
    i + 3 <= |t| && t[i] == ']' && t[i + 1] == '}' && t[i + 2] == '}'
  }

  /** The literal parts of the pattern sit where `m` says. */
  predicate Delimits(t: string, m: Match) {
    m.start + 2 <= m.slash < m.bracket < m.close && m.close + 3 <= |t|
    && t[m.start] == '{' && t[m.start + 1] == '{'
    && t[m.slash] == '/' && t[m.bracket] == '['
    && ClosesAt(t, m.close)
  }

  /** `m` is one way the pattern matches `t`, whatever the group preferences. */
  predicate IsMatch(t: string, m: Match) {
    Delimits(t, m) && OnOneLine(t, m.start, m.close + 3)
  }

  /** The order in which the backtracking matcher tries matches: leftmost
      start first, then the shortest group 1, then the shortest group 2,
      then the longest group 3. */
  predicate TriedBefore(m: Match, n: Match) {
    m.start < n.start
    || (m.start == n.start && m.slash < n.slash)
    || (m.start == n.start && m.slash == n.slash && m.bracket < n.bracket)
    || (m.start == n.start && m.slash == n.slash && m.bracket == n.bracket && m.close > n.close)
  }

  /** The end of the line holding position `i`: the first line terminator
      at or after `i`, or the end of the text. */
  function LineEnd(t: string, i: nat): (e: nat)
    requires i <= |t|
    ensures i <= e <= |t| && OnOneLine(t, i, e)
    ensures e < |t| ==> IsLineTerminator(t[e])
    decreases |t| - i
  {
    if i == |t| || IsLineTerminator(t[i]) then i else LineEnd(t, i + 1)
  }

  /** The first position of `c` in `t[i..e]`, or `e`. */
  function FirstIn(t: string, c: char, i: nat, e: nat): (r: nat)
    requires i <= e <= |t|
    ensures i <= r <= e
    ensures r < e ==> t[r] == c
    ensures forall k :: i <= k < r ==> t[k] != c
    decreases e - i
  {
    if i == e || t[i] == c then i else FirstIn(t, c, i + 1, e)
  }

  /** The last position in `[lo, hi)` where `]}}` starts and ends by `e`. */
  function LastClose(t: string, lo: nat, hi: nat, e: nat): (r: Option<nat>)
    requires lo <= hi && e <= |t|
    ensures r.Some? ==> lo <= r.value < hi && r.value + 3 <= e && ClosesAt(t, r.value)
    ensures r.Some? ==> forall k :: r.value < k < hi && k + 3 <= e ==> !ClosesAt(t, k)
    ensures r.None? ==> forall k :: lo <= k < hi && k + 3 <= e ==> !ClosesAt(t, k)
    decreases hi - lo
  {
    if lo == hi then None
    else if hi - 1 + 3 <= e && ClosesAt(t, hi - 1) then Some(hi - 1)
    else LastClose(t, lo, hi - 1, e)
  }

  /** The match the matcher reports when it tries position `s`, if any. */
  function MatchAt(t: string, s: nat): (r: Option<Match>)
    requires s <= |t|
    ensures r.Some? ==> IsMatch(t, r.value) && r.value.start == s
  {
    if s + 2 <= |t| && t[s] == '{' && t[s + 1] == '{' then
      var e := LineEnd(t, s + 2);
      var slash := FirstIn(t, '/', s + 2, e);
      if slash == e then None
      else
        var bracket := FirstIn(t, '[', slash + 1, e);
        if bracket == e then None
        else
          match LastClose(t, bracket + 1, e, e)
          case None => None
          case Some(close) => Some(Match(s, slash, bracket, close))
    else None
  }

  /** `MatchAt` reports the first match starting at `s` in the order the
      matcher tries them, and reports none exactly when none starts there. */
  lemma MatchAtPreferred(t: string, s: nat, n: Match)
    requires s <= |t|
    requires IsMatch(t, n) && n.start == s
    ensures MatchAt(t, s).Some?
    ensures MatchAt(t, s).value == n || TriedBefore(MatchAt(t, s).value, n)
  {
    var e := LineEnd(t, s + 2);
    assert n.close + 3 <= e;
    var slash := FirstIn(t, '/', s + 2, e);
    assert slash <= n.slash;
    var bracket := FirstIn(t, '[', slash + 1, e);
    assert bracket <= n.bracket;
    assert n.close < e;
  }

  /** The leftmost, most preferred match starting at or after `from`: what
      `find()` reports when it resumes at `from`. */
  function FindFrom(t: string, from: nat): (r: Option<Match>)
    requires from <= |t|
    ensures r.Some? ==> IsMatch(t, r.value) && from <= r.value.start
    decreases |t| - from
  {
    match MatchAt(t, from)
    case Some(m) => Some(m)
    case None => if from == |t| then None else FindFrom(t, from + 1)
  }

  /** `FindFrom` is the first match in the matcher's order among those
      starting at or after `from`, and finds nothing only when there is none. */
  lemma {:induction false} FindFromFirst(t: string, from: nat, n: Match)
    requires from <= |t|
    requires IsMatch(t, n) && from <= n.start
    ensures FindFrom(t, from).Some?
    ensures FindFrom(t, from).value == n || TriedBefore(FindFrom(t, from).value, n)
    decreases |t| - from
  {
    if n.start == from {
      MatchAtPreferred(t, from, n);
    } else if MatchAt(t, from).None? {
      FindFromFirst(t, from + 1, n);
    }
  }
}
