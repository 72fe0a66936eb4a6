/** The name sanitiser `convertToKubernetesName`: one left-to-right pass over
    the lower-cased text that keeps letters and digits, turns every other
    character into a separator (`-`, or `.` for `/` and `.` when dots are
    allowed), and drops a separator at the start, after another separator,
    and at the last input position. A leading digit gets an `n` in front. */
module Sanitizer {
  import Decimal

  predicate IsLowerLetter(c: char) {
    'a' <= c <= 'z'
  }

  /** Letters and digits: the characters the sanitiser always keeps. */
  predicate IsAlnum(c: char) {
    IsLowerLetter(c) || Decimal.IsDigit(c)
  }

  predicate IsSeparator(c: char) {
    c == '-' || c == '.'
  }

  /** No two separators stand next to each other in `s`. */
  predicate SeparatorsApart(s: string) {
    forall k :: 0 <= k < |s| - 1 ==> !(IsSeparator(s[k]) && IsSeparator(s[k + 1]))
  }

  /** The alphabet of a sanitised name. */
  predicate IsNameChar(c: char, allowDots: bool) {
    IsAlnum(c) || c == '-' || (allowDots && c == '.')
  }

  function LowerChar(c: char): char {
    if 'A' <= c <= 'Z' then (c as int + 32) as char else c
  }

  /** `String.toLowerCase`, on the ASCII letters. */
  function Lower(s: string): (r: string)
    ensures |r| == |s|
    ensures forall k :: 0 <= k < |r| ==> !('A' <= r[k] <= 'Z')
    ensures forall k :: 0 <= k < |s| && !('A' <= s[k] <= 'Z') ==> r[k] == s[k]
    ensures forall k :: 0 <= k < |s| && 'A' <= s[k] <= 'Z' ==>
              'a' <= r[k] <= 'z' && r[k] as int - 'a' as int == s[k] as int - 'A' as int
  {
    seq(|s|, k requires 0 <= k < |s| => LowerChar(s[k]))
  }

  /** Some letter or digit is among the first `n` characters of `s`. */
  predicate AlnumBefore(s: string, n: nat)
    requires n <= |s|
    decreases n
  {
    n > 0 && (IsAlnum(s[n - 1]) || AlnumBefore(s, n - 1))
  }

  predicate HasAlnum(s: string) {
    AlnumBefore(s, |s|)
  }

  /** The separator a character other than a letter or digit maps to. */
  function SeparatorFor(c: char, allowDots: bool): (sep: char)
    ensures IsSeparator(sep)
    ensures sep == '.' <==> allowDots && (c == '/' || c == '.')
  {
    if allowDots && (c == '/' || c == '.') then '.' else '-'
  }

  /** What input position `i` contributes to the name, decided from the
      input alone: a letter or digit is kept (a digit with no letter or digit
      before it gets an `n` in front); any other character becomes a separator
      exactly when it directly follows a letter or digit and is not the last
      character. */
  function Piece(lower: string, allowDots: bool, i: nat): string
    requires i < |lower|
  {
    var c := lower[i];
    if IsAlnum(c) then
      (if Decimal.IsDigit(c) && !AlnumBefore(lower, i) then ['n', c] else [c])
    else if 0 < i < |lower| - 1 && IsAlnum(lower[i - 1]) then
      [SeparatorFor(c, allowDots)]
    else
      []
  }

  /** The pieces of the first `n` input positions, in order. */
  function Prefix(lower: string, allowDots: bool, n: nat): string
    requires n <= |lower|
    decreases n
  {
    if n == 0 then [] else Prefix(lower, allowDots, n - 1) + Piece(lower, allowDots, n - 1)
  }

  /** The sanitised name of an already lower-cased text. */
  function KubernetesName(lower: string, allowDots: bool): string {
    Prefix(lower, allowDots, |lower|)
  }

  /** The letters and digits among the first `n` characters of `s`, in order. */
  function AlnumsBefore(s: string, n: nat): string
    requires n <= |s|
    decreases n
  {
    if n == 0 then [] else AlnumsBefore(s, n - 1) + (if IsAlnum(s[n - 1]) then [s[n - 1]] else [])
  }

  /** The letters and digits of `s`, in order. */
  function Alnums(s: string): string {
    AlnumsBefore(s, |s|)
  }

  /** True when the first letter or digit among the first `n` characters of
      `s` is a digit. */
  predicate LeadsWithDigit(s: string, n: nat)
    requires n <= |s|
    decreases n
  {
    n > 0 &&
    if AlnumBefore(s, n - 1) then LeadsWithDigit(s, n - 1) else Decimal.IsDigit(s[n - 1])
  }

  // ---------------------------------------------------------------------------
  // The loop of `convertToKubernetesName`, proved equal to the piecewise definition.

  method ConvertToKubernetesName(text: string, allowDots: bool) returns (r: string)
    ensures r == KubernetesName(Lower(text), allowDots)
    ensures forall k :: 0 <= k < |r| ==> IsNameChar(r[k], allowDots)
    ensures |r| > 0 ==> IsLowerLetter(r[0])
    ensures |r| > 0 <==> HasAlnum(Lower(text))
    ensures SeparatorsApart(r)
  {
    var lower := Lower(text);
    var builder := "";
    var started := false;
    var lastCh := ' ';
    var last := |lower| - 1;
    var i := 0;
    while i <= last
      invariant 0 <= i <= |lower|
      invariant builder == Prefix(lower, allowDots, i)
      invariant started <==> |builder| > 0
      invariant started <==> AlnumBefore(lower, i)
      invariant started ==> lastCh == builder[|builder| - 1]
      invariant 0 < i && IsAlnum(lower[i - 1]) ==> started && lastCh == lower[i - 1]
      invariant 0 < i < |lower| && !IsAlnum(lower[i - 1]) ==> !started || IsSeparator(lastCh)
    {
      builder, started, lastCh := Step(lower, allowDots, i, builder, started, lastCh);
      i := i + 1;
    }
    r := builder;
    NameProperties(lower, allowDots);
  }

  /** One turn of the loop over `lower[i]`: it appends exactly the piece
      `Piece` describes and keeps the loop's bookkeeping of whether a letter
      or digit was written and which character came last. */
  method Step(lower: string, allowDots: bool, i: nat, builder: string, started: bool, lastCh: char)
    returns (next: string, nowStarted: bool, nowLast: char)
    requires i < |lower|
    requires started <==> |builder| > 0
    requires started <==> AlnumBefore(lower, i)
    requires started ==> lastCh == builder[|builder| - 1]
    requires 0 < i && IsAlnum(lower[i - 1]) ==> started && lastCh == lower[i - 1]
    requires 0 < i < |lower| && !IsAlnum(lower[i - 1]) ==> !started || IsSeparator(lastCh)
    ensures next == builder + Piece(lower, allowDots, i)
    ensures nowStarted <==> |next| > 0
    ensures nowStarted <==> AlnumBefore(lower, i + 1)
    ensures nowStarted ==> nowLast == next[|next| - 1]
    ensures IsAlnum(lower[i]) ==> nowStarted && nowLast == lower[i]
    ensures i + 1 < |lower| && !IsAlnum(lower[i]) ==> !nowStarted || IsSeparator(nowLast)
  {
    PieceStep(lower, allowDots, i, started, lastCh);
    next, nowStarted, nowLast := builder, started, lastCh;
    var ch := lower[i];
    var digit := Decimal.IsDigit(ch);
    if digit && |next| == 0 {
      next := next + ['n'];
    }
    if !IsLowerLetter(ch) && !digit {
      ch := Separator(ch, allowDots);
      if !started || lastCh == '-' || lastCh == '.' || i == |lower| - 1 {
        return;
      }
    }
    next := next + [ch];
    nowStarted := true;
    nowLast := ch;
  }

  /** The separator the loop writes for a character other than a letter or
      digit: `/` becomes `.`, anything but `.` and `-` becomes `-`, and `.`
      becomes `-` when dots are not allowed. */
  method Separator(c: char, allowDots: bool) returns (ch: char)
    ensures ch == SeparatorFor(c, allowDots)
  {
    ch := c;
    if ch == '/' {
      ch := '.';
    } else if ch != '.' && ch != '-' {
      ch := '-';
    }
    if !allowDots && ch == '.' {
      ch := '-';
    }
  }

  /** The properties of a whole sanitised name. */
  lemma NameProperties(lower: string, allowDots: bool)
    ensures var r := KubernetesName(lower, allowDots);
            (forall k :: 0 <= k < |r| ==> IsNameChar(r[k], allowDots))
            && (|r| > 0 ==> IsLowerLetter(r[0]))
            && (|r| > 0 <==> HasAlnum(lower))
            && SeparatorsApart(r)
  {
    NameAlphabet(lower, allowDots, |lower|);
    NameStart(lower, allowDots, |lower|);
    NoAdjacentSeparators(lower, allowDots, |lower|);
  }

  /** One turn of the loop appends exactly `Piece(lower, allowDots, i)`, given
      what the loop knows about the text before position `i`. */
  lemma PieceStep(lower: string, allowDots: bool, i: nat, started: bool, lastCh: char)
    requires i < |lower|
    requires started <==> AlnumBefore(lower, i)
    requires 0 < i && IsAlnum(lower[i - 1]) ==> started && lastCh == lower[i - 1]
    requires 0 < i < |lower| && !IsAlnum(lower[i - 1]) ==> !started || IsSeparator(lastCh)
    ensures IsAlnum(lower[i]) ==>
              Piece(lower, allowDots, i) ==
              (if Decimal.IsDigit(lower[i]) && !started then ['n', lower[i]] else [lower[i]])
    ensures !IsAlnum(lower[i]) ==>
              Piece(lower, allowDots, i) ==
              (if !started || IsSeparator(lastCh) || i == |lower| - 1 then []
               else [SeparatorFor(lower[i], allowDots)])
    ensures AlnumBefore(lower, i + 1) <==> started || IsAlnum(lower[i])
  {
  }

  /** The name of a config map owned by `ownerName`: sanitised without dots. */
  method ConfigMapName(ownerName: string) returns (r: string)
    ensures r == KubernetesName(Lower(ownerName), false)
    ensures forall k :: 0 <= k < |r| ==> r[k] != '.' && IsNameChar(r[k], false)
  {
    r := ConvertToKubernetesName(ownerName, false);
  }

  // ---------------------------------------------------------------------------
  // Properties of the sanitised name.

  /** Only letters, digits and `-` appear, and `.` only when dots are allowed. */
  lemma {:induction false} NameAlphabet(lower: string, allowDots: bool, n: nat)
    requires n <= |lower|
    ensures forall k :: 0 <= k < |Prefix(lower, allowDots, n)| ==>
              IsNameChar(Prefix(lower, allowDots, n)[k], allowDots)
    decreases n
  {
    if n > 0 {
      NameAlphabet(lower, allowDots, n - 1);
    }
  }

  /** The name is empty exactly when the input has no letter or digit, and
      otherwise starts with a letter, never with a digit or separator. */
  lemma {:induction false} NameStart(lower: string, allowDots: bool, n: nat)
    requires n <= |lower|
    ensures |Prefix(lower, allowDots, n)| > 0 <==> AlnumBefore(lower, n)
    ensures |Prefix(lower, allowDots, n)| > 0 ==> IsLowerLetter(Prefix(lower, allowDots, n)[0])
    decreases n
  {
    if n > 0 {
      NameStart(lower, allowDots, n - 1);
    }
  }

  /** Every letter or digit of the input position `n - 1` leaves the name
      ending in a letter or digit, and no two separators are adjacent. */
  lemma {:induction false} NoAdjacentSeparators(lower: string, allowDots: bool, n: nat)
    requires n <= |lower|
    ensures SeparatorsApart(Prefix(lower, allowDots, n))
    ensures var p := Prefix(lower, allowDots, n);
            n > 0 && IsAlnum(lower[n - 1]) ==> |p| > 0 && IsAlnum(p[|p| - 1])
    decreases n
  {
    if n > 0 {
      NoAdjacentSeparators(lower, allowDots, n - 1);
      var p := Prefix(lower, allowDots, n - 1);
      var q := Piece(lower, allowDots, n - 1);
      assert Prefix(lower, allowDots, n) == p + q;
      forall k | 0 <= k < |p + q| - 1
        ensures !(IsSeparator((p + q)[k]) && IsSeparator((p + q)[k + 1]))
      {
        if k + 1 < |p| {
          assert (p + q)[k] == p[k] && (p + q)[k + 1] == p[k + 1];
        } else if k + 1 == |p| {
          assert (p + q)[k] == p[|p| - 1] && (p + q)[k + 1] == q[0];
          if IsSeparator(q[0]) {
            assert n - 1 > 0 && IsAlnum(lower[n - 2]);
            assert IsAlnum(p[|p| - 1]);
          }
        } else {
          assert (p + q)[k] == q[k - |p|] && (p + q)[k + 1] == q[k + 1 - |p|];
          assert |q| == 2 && q[0] == 'n';
          assert !IsSeparator(q[0]);
        }
      }
    }
  }

  /** The letters and digits before position `n` depend only on the
      characters before it. */
  lemma {:induction false} AlnumsBeforeFrame(s: string, t: string, n: nat)
    requires n <= |s| && n <= |t|
    requires forall k :: 0 <= k < n ==> s[k] == t[k]
    ensures AlnumsBefore(s, n) == AlnumsBefore(t, n)
    decreases n
  {
    if n > 0 {
      AlnumsBeforeFrame(s, t, n - 1);
    }
  }

  /** Appending text appends its letters and digits. */
  lemma {:induction false} AlnumsAppend(a: string, b: string, n: nat)
    requires n <= |b|
    ensures AlnumsBefore(a + b, |a| + n) == Alnums(a) + AlnumsBefore(b, n)
    decreases n
  {
    if n == 0 {
      AlnumsBeforeFrame(a + b, a, |a|);
    } else {
      AlnumsAppend(a, b, n - 1);
      assert (a + b)[|a| + n - 1] == b[n - 1];
    }
  }

  lemma {:induction false} AlnumBeforeIff(s: string, n: nat)
    requires n <= |s|
    ensures AlnumBefore(s, n) <==> |AlnumsBefore(s, n)| > 0
    decreases n
  {
    if n > 0 {
      AlnumBeforeIff(s, n - 1);
    }
  }

  /** The letters and digits one input position contributes. */
  lemma PieceAlnums(lower: string, allowDots: bool, i: nat)
    requires i < |lower|
    ensures var c := lower[i];
            Alnums(Piece(lower, allowDots, i)) ==
            (if !IsAlnum(c) then []
             else if Decimal.IsDigit(c) && !AlnumBefore(lower, i) then ['n', c]
             else [c])
  {
    var c := lower[i];
    var q := Piece(lower, allowDots, i);
    if !IsAlnum(c) {
      if |q| == 1 {
        assert IsSeparator(q[0]);
        assert AlnumsBefore(q, 1) == AlnumsBefore(q, 0) + [];
      }
    } else if Decimal.IsDigit(c) && !AlnumBefore(lower, i) {
      assert q == ['n', c];
      assert AlnumsBefore(q, 1) == ['n'];
      assert AlnumsBefore(q, 2) == ['n'] + [c];
    } else {
      assert q == [c];
      assert AlnumsBefore(q, 1) == [] + [c];
    }
  }

  /** The letters and digits of the input survive, in their order, and the
      only one added is the `n` in front of a leading digit. */
  lemma {:induction false} AlnumOrder(lower: string, allowDots: bool, n: nat)
    requires n <= |lower|
    ensures Alnums(Prefix(lower, allowDots, n)) ==
            (if LeadsWithDigit(lower, n) then "n" else "") + AlnumsBefore(lower, n)
    decreases n
  {
    if n > 0 {
      AlnumOrder(lower, allowDots, n - 1);
      var p := Prefix(lower, allowDots, n - 1);
      var q := Piece(lower, allowDots, n - 1);
      assert Prefix(lower, allowDots, n) == p + q;
      AlnumsAppend(p, q, |q|);
      assert Alnums(p + q) == Alnums(p) + Alnums(q);
      PieceAlnums(lower, allowDots, n - 1);
      if AlnumBefore(lower, n - 1) {
        AlnumOrderLater(Alnums(p), Alnums(q), lower, n);
      } else {
        AlnumBeforeIff(lower, n - 1);
        NameStart(lower, allowDots, n - 1);
        assert p == [];
        AlnumOrderFirst(Alnums(p), Alnums(q), lower, n);
      }
    }
  }

  /** The step of `AlnumOrder` while no letter or digit has been seen: a
      leading digit brings its `n` along. */
  lemma AlnumOrderFirst(ap: string, aq: string, lower: string, n: nat)
    requires 0 < n <= |lower|
    requires !AlnumBefore(lower, n - 1) && AlnumsBefore(lower, n - 1) == []
    requires ap == []
    requires var c := lower[n - 1];
             aq == (if !IsAlnum(c) then []
                    else if Decimal.IsDigit(c) then ['n', c]
                    else [c])
    ensures ap + aq == (if LeadsWithDigit(lower, n) then "n" else "") + AlnumsBefore(lower, n)
  {
    var c := lower[n - 1];
    assert LeadsWithDigit(lower, n) == (IsAlnum(c) && Decimal.IsDigit(c));
    assert AlnumsBefore(lower, n) == (if IsAlnum(c) then [c] else []);
    assert "n" + [c] == ['n', c];
  }

  /** The step of `AlnumOrder` once a letter or digit has been seen: the
      characters a piece adds are the input character's. */
  lemma AlnumOrderLater(ap: string, aq: string, lower: string, n: nat)
    requires 0 < n <= |lower|
    requires AlnumBefore(lower, n - 1)
    requires ap == (if LeadsWithDigit(lower, n - 1) then "n" else "") + AlnumsBefore(lower, n - 1)
    requires aq == (if IsAlnum(lower[n - 1]) then [lower[n - 1]] else [])
    ensures ap + aq == (if LeadsWithDigit(lower, n) then "n" else "") + AlnumsBefore(lower, n)
  {
    var pre: string := if LeadsWithDigit(lower, n - 1) then "n" else "";
    var before := AlnumsBefore(lower, n - 1);
    assert pre + before + aq == pre + (before + aq);
  }

  /** The input ends in a run of at least two characters other than letters
      and digits, directly after a letter or digit, within its first `n`
      positions. */
  predicate EndsInSeparatorRun(lower: string, n: nat)
    requires n <= |lower|
  {
    exists i :: 0 <= i && i + 1 < n && i + 2 < |lower| && IsAlnum(lower[i]) &&
      forall j :: i < j < n ==> !IsAlnum(lower[j])
  }

  /** The name ends in a separator exactly when the input ends in a run of two
      or more characters other than letters and digits after a letter or
      digit: the last-position rule drops only the final character of such a
      run, so the run's first character survives. */
  lemma {:induction false} TrailingSeparator(lower: string, allowDots: bool, n: nat)
    requires n <= |lower|
    ensures var p := Prefix(lower, allowDots, n);
            (|p| > 0 && IsSeparator(p[|p| - 1])) <==> EndsInSeparatorRun(lower, n)
    decreases n
  {
    if n > 0 {
      TrailingSeparator(lower, allowDots, n - 1);
      NoAdjacentSeparators(lower, allowDots, n);
      var p := Prefix(lower, allowDots, n - 1);
      var q := Piece(lower, allowDots, n - 1);
      var c := lower[n - 1];
      if IsAlnum(c) {
        assert !EndsInSeparatorRun(lower, n);
      } else if q != [] {
        assert q == [SeparatorFor(c, allowDots)];
        assert (p + q)[|p + q| - 1] == q[0];
        assert 0 <= n - 2 && n - 1 < n && n < |lower| && IsAlnum(lower[n - 2]);
        assert forall j :: n - 2 < j < n ==> !IsAlnum(lower[j]);
      } else {
        assert p + q == p;
        if EndsInSeparatorRun(lower, n) {
          var i :| 0 <= i && i + 1 < n && i + 2 < |lower| && IsAlnum(lower[i]) &&
            forall j :: i < j < n ==> !IsAlnum(lower[j]);
          assert i + 2 < n;
          assert EndsInSeparatorRun(lower, n - 1);
        }
        if EndsInSeparatorRun(lower, n - 1) {
          var i :| 0 <= i && i + 1 < n - 1 && i + 2 < |lower| && IsAlnum(lower[i]) &&
            forall j :: i < j < n - 1 ==> !IsAlnum(lower[j]);
          assert forall j :: i < j < n ==> !IsAlnum(lower[j]);
        }
      }
    }
  }

  /** The sanitiser is not idempotent: a name it produced can change again. */
  lemma NotIdempotent()
    ensures KubernetesName("a!!", false) == "a-"
    ensures KubernetesName("a-", false) == "a"
  {
    var s := "a!!";
    assert Piece(s, false, 0) == "a";
    assert Piece(s, false, 1) == "-";
    assert Piece(s, false, 2) == "";
    assert Prefix(s, false, 1) == "a";
    assert Prefix(s, false, 2) == "a-";
    var t := "a-";
    assert Piece(t, false, 0) == "a";
    assert Piece(t, false, 1) == "";
    assert Prefix(t, false, 1) == "a";
  }

  /** A worked example: a leading digit, a space and a doubled `!`. */
  lemma ExampleLower()
    ensures Lower("123 Foo!!Bar") == "123 foo!!bar"
  {
  }

  /** A worked example: a leading digit, a space and a doubled `!`. */
  lemma ExampleName()
    ensures KubernetesName("123 foo!!bar", false) == "n123-foo-bar"
  {
    var s := "123 foo!!bar";
    ExampleNameStart();
    assert Prefix(s, false, 7) == "n123-foo";
    assert Prefix(s, false, 8) == "n123-foo-";
    assert Prefix(s, false, 9) == "n123-foo-";
    assert Prefix(s, false, 10) == "n123-foo-b";
    assert Prefix(s, false, 11) == "n123-foo-ba";
  }

  lemma ExampleNameStart()
    ensures Prefix("123 foo!!bar", false, 6) == "n123-fo"
  {
    var s := "123 foo!!bar";
    assert Prefix(s, false, 1) == "n1";
    assert Prefix(s, false, 2) == "n12";
    assert Prefix(s, false, 3) == "n123";
    assert Prefix(s, false, 4) == "n123-";
    assert Prefix(s, false, 5) == "n123-f";
  }

  /** The empty text sanitises to the empty name. */
  lemma EmptyName(allowDots: bool)
    ensures KubernetesName("", allowDots) == ""
  {
  }
}
