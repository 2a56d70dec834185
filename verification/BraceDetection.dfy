/** When a pattern expands to more than one string, and when the test says so. */
module BraceDetection {
  import opened Basics
  import opened Text
  import opened Braces

  // ----- The test -----

  /** What `has_brace_pattern` decides, in one pass: a comma after an open brace,
      with no closing brace in between and one to come. */
  predicate FlagScan(s: string, inside: bool)
    decreases s
  {
    if s == [] then false
    else if s[0] == '{' then FlagScan(s[1..], true)
    else if s[0] == '}' then FlagScan(s[1..], false)
    else (s[0] == ',' && inside && '}' in s[1..]) || FlagScan(s[1..], inside)
  }

  method HasBracePattern(path: string) returns (found: bool)
    ensures found <==> FlagScan(path, false)
  {
    var remaining := path;
    while true
      invariant FlagScan(path, false) == FlagScan(remaining, false)
      decreases |remaining|
    {
      var open := Find(remaining, '{');
      if open.None? {
        FlagWithoutOpen(remaining);
        return false;
      }
      var afterOpen := remaining[open.value..];
      var closeOffset := Find(afterOpen, '}');
      FlagSkipsText(remaining, open.value);
      if closeOffset.None? {
        FlagWithoutClose(afterOpen[1..], true);
        return false;
      }
      FlagUpToClose(afterOpen[1..], closeOffset.value - 1);
      assert afterOpen[1..][..closeOffset.value - 1] == afterOpen[..closeOffset.value][1..];
      var comma := Find(afterOpen[..closeOffset.value], ',');
      if comma.Some? {
        assert afterOpen[..closeOffset.value][1..][comma.value - 1] == ',';
        return true;
      }
      assert afterOpen[1..][closeOffset.value..] == afterOpen[closeOffset.value + 1..];
      remaining := afterOpen[closeOffset.value + 1..];
    }
  }

  lemma {:induction false} FlagWithoutOpen(s: string)
    requires '{' !in s
    ensures !FlagScan(s, false)
  {
    if s != [] { FlagWithoutOpen(s[1..]); }
  }

  lemma {:induction false} FlagWithoutClose(s: string, inside: bool)
    requires '}' !in s
    ensures !FlagScan(s, inside)
  {
    if s != [] { FlagWithoutClose(s[1..], inside || s[0] == '{'); }
  }

  lemma {:induction false} FlagSkipsText(s: string, n: nat)
    requires n <= |s| && '{' !in s[..n]
    ensures FlagScan(s, false) == FlagScan(s[n..], false)
  {
    if n > 0 {
      assert s[..n][0] == s[0] && s[1..][..n - 1] == s[..n][1..] && s[1..][n - 1..] == s[n..];
      FlagSkipsText(s[1..], n - 1);
    }
  }

  lemma {:induction false} FlagUpToClose(s: string, n: nat)
    requires n < |s| && s[n] == '}' && '}' !in s[..n]
    ensures FlagScan(s, true) <==> ',' in s[..n] || FlagScan(s[n + 1..], false)
  {
    if n > 0 {
      assert s[..n] == [s[0]] + s[1..][..n - 1] && s[1..][n..] == s[n + 1..];
      assert s[1..][n - 1] == '}';
      FlagUpToClose(s[1..], n - 1);
    }
  }

  // ----- When the expansion branches -----

  /** The same pass with a count of open braces in place of a flag. */
  predicate CountScan(s: string, depth: nat)
    decreases s
  {
    if s == [] then false
    else if s[0] == '{' then CountScan(s[1..], depth + 1)
    else if s[0] == '}' then CountScan(s[1..], if depth > 0 then depth - 1 else 0)
    else (s[0] == ',' && depth > 0 && '}' in s[1..]) || CountScan(s[1..], depth)
  }

  /** Open braces after text without `}`. */
  lemma {:induction false} CountSkips(s: string, n: nat, depth: nat)
    requires n <= |s| && '}' !in s[..n] && (',' !in s[..n] || (depth == 0 && '{' !in s[..n]))
    ensures CountScan(s, depth) == CountScan(s[n..], depth + CountChar(s[..n], '{'))
  {
    if n > 0 {
      assert s[..n] == [s[0]] + s[1..][..n - 1] && s[1..][n - 1..] == s[n..];
      CountSkips(s[1..], n - 1, depth + if s[0] == '{' then 1 else 0);
    }
  }

  /** Text without `{` opens nothing, whatever stray `}` it holds. */
  lemma {:induction false} CountSkipsText(s: string, n: nat)
    requires n <= |s| && '{' !in s[..n]
    ensures CountScan(s, 0) == CountScan(s[n..], 0)
  {
    if n > 0 {
      assert s[..n] == [s[0]] + s[1..][..n - 1] && s[1..][n - 1..] == s[n..];
      CountSkipsText(s[1..], n - 1);
    }
  }

  lemma {:induction false} CountWithoutClose(s: string, depth: nat)
    requires '}' !in s
    ensures !CountScan(s, depth)
  {
    if s != [] { CountWithoutClose(s[1..], depth + if s[0] == '{' then 1 else 0); }
  }

  lemma {:induction false} CommaBeforeClose(s: string, n: nat, depth: nat)
    requires n < |s| && s[n] == '}' && '}' !in s[..n] && ',' in s[..n] && depth > 0
    ensures CountScan(s, depth)
  {
    assert s[..n] == [s[0]] + s[1..][..n - 1];
    assert s[1..][n - 1] == '}';
    if s[0] != ',' {
      CommaBeforeClose(s[1..], n - 1, depth + if s[0] == '{' then 1 else 0);
    }
  }

  lemma CountWithoutGroup(pattern: string)
    requires GroupOf(pattern).NoGroup?
    ensures !CountScan(pattern, 0)
  {
    var open := Find(pattern, '{');
    if open.None? {
      CountSkipsText(pattern, |pattern|);
    } else {
      CountSkipsText(pattern, open.value);
      CountWithoutClose(pattern[open.value..], 0);
    }
  }

  /** The closing brace ends what was opened within its group. */
  lemma CountGroup(pattern: string)
    requires GroupOf(pattern).FirstGroup? && ',' !in Inside(pattern)
    ensures CountScan(pattern, 0) == CountScan(pattern[GroupOf(pattern).close + 1..], CountChar(Inside(pattern), '{'))
  {
    hide CountScan, CountChar, Find;
    var g := GroupOf(pattern);
    var (prefix, suffix) := (pattern[..g.open], pattern[g.close + 1..]);
    assert pattern == prefix + (['{'] + (Inside(pattern) + (['}'] + suffix)));
    CountBraces(prefix, Inside(pattern), suffix);
  }

  lemma CountBraces(prefix: string, inside: string, suffix: string)
    requires '{' !in prefix && '}' !in inside && ',' !in inside
    ensures CountScan(prefix + (['{'] + (inside + (['}'] + suffix))), 0) == CountScan(suffix, CountChar(inside, '{'))
  {
    var rest := inside + (['}'] + suffix);
    var s := prefix + (['{'] + rest);
    assert s[..|prefix|] == prefix && s[|prefix|..] == ['{'] + rest && (['{'] + rest)[1..] == rest;
    CountSkipsText(s, |prefix|);
    assert CountScan(s, 0) == CountScan(rest, 1);
    CountInside(inside, suffix);
  }

  lemma CountInside(inside: string, suffix: string)
    requires '}' !in inside && ',' !in inside
    ensures CountScan(inside + (['}'] + suffix), 1) == CountScan(suffix, CountChar(inside, '{'))
  {
    hide CountChar;
    var rest := inside + (['}'] + suffix);
    assert rest[..|inside|] == inside && rest[|inside|..] == ['}'] + suffix && (['}'] + suffix)[1..] == suffix;
    CountSkips(rest, |inside|, 1);
  }

  lemma CountText(prefix: string, inside: string, suffix: string)
    requires '{' !in prefix && '}' !in inside && ',' !in inside
    ensures CountScan(prefix + inside + suffix, 0) == CountScan(suffix, CountChar(inside, '{'))
  {
    var t := prefix + inside + suffix;
    assert t[..|prefix|] == prefix;
    CountSkipsText(t, |prefix|);
    var u := t[|prefix|..];
    assert u[..|inside|] == inside && u[|inside|..] == suffix;
    CountSkips(u, |inside|, 0);
  }

  /** A group without a comma can be taken out of its braces: the closing brace
      takes back the opening one, and what it opened inside stays open. */
  lemma CountSubstituted(pattern: string)
    requires GroupOf(pattern).FirstGroup? && ',' !in Inside(pattern)
    ensures CountScan(pattern, 0) == CountScan(Substituted(pattern, Inside(pattern)), 0)
  {
    var g := GroupOf(pattern);
    var (prefix, inside, suffix) := (pattern[..g.open], Inside(pattern), pattern[g.close + 1..]);
    CountGroup(pattern);
    CountText(prefix, inside, suffix);
  }

  lemma SeveralCounted(pattern: string)
    requires GroupOf(pattern).FirstGroup? && ',' in Inside(pattern)
    ensures CountScan(pattern, 0)
  {
    hide CountScan, Find;
    var g := GroupOf(pattern);
    var (prefix, suffix) := (pattern[..g.open], pattern[g.close + 1..]);
    assert pattern == prefix + (['{'] + (Inside(pattern) + (['}'] + suffix)));
    CountComma(prefix, Inside(pattern), suffix);
  }

  lemma CountComma(prefix: string, inside: string, suffix: string)
    requires '{' !in prefix && '}' !in inside && ',' in inside
    ensures CountScan(prefix + (['{'] + (inside + (['}'] + suffix))), 0)
  {
    var rest := inside + (['}'] + suffix);
    var s := prefix + (['{'] + rest);
    assert s[..|prefix|] == prefix && s[|prefix|..] == ['{'] + rest && (['{'] + rest)[1..] == rest;
    CountSkipsText(s, |prefix|);
    assert rest[..|inside|] == inside && rest[|inside|] == '}';
    CommaBeforeClose(rest, |inside|, 1);
  }

  /** The expansion branches exactly when the counting pass says so. */
  lemma {:induction false} BranchesExactlyWhen(pattern: string)
    ensures |Expand(pattern)| >= 2 <==> CountScan(pattern, 0)
    decreases CountChar(pattern, '}')
  {
    if GroupOf(pattern).NoGroup? {
      CountWithoutGroup(pattern);
    } else {
      var g := GroupOf(pattern);
      var inside := Inside(pattern);
      SplitParts(inside, ',', ',');
      if ',' in inside {
        assert |Expand(pattern)| >= |Split(inside, ',')|;
        SeveralCounted(pattern);
      } else {
        assert Split(inside, ',') == [inside];
        OneBraceFewer(pattern, 0);
        CountSubstituted(pattern);
        BranchesExactlyWhen(Substituted(pattern, inside));
        assert ExpandFrom(pattern, 1) == [];
      }
    }
  }

  lemma {:induction false} FlagImpliesCount(s: string, inside: bool, depth: nat)
    requires inside ==> depth > 0
    requires FlagScan(s, inside)
    ensures CountScan(s, depth)
  {
    if s[0] == '{' {
      FlagImpliesCount(s[1..], true, depth + 1);
    } else if s[0] == '}' {
      FlagImpliesCount(s[1..], false, if depth > 0 then depth - 1 else 0);
    } else if !(s[0] == ',' && inside && '}' in s[1..]) {
      FlagImpliesCount(s[1..], inside, depth);
    }
  }

  /** A pattern the test announces expands to at least two strings, capped or not. */
  lemma DetectedMeansSeveral(path: string)
    requires FlagScan(path, false)
    ensures |Expand(path)| >= 2 && |Capped(Expand(path))| >= 2
  {
    FlagImpliesCount(path, false, 0);
    BranchesExactlyWhen(path);
  }

  // ----- Exactly when the test is right -----

  /** The nearest brace before the end of the text is an opening one. */
  predicate AfterOpen(s: string) {
    if s == [] then false
    else
      var c := s[|s| - 1];
      if c == '{' then true else if c == '}' then false else AfterOpen(s[..|s| - 1])
  }

  /** How many braces are open at the end of the text. */
  function Depth(s: string): nat {
    if s == [] then 0
    else
      var (c, before) := (s[|s| - 1], Depth(s[..|s| - 1]));
      if c == '{' then before + 1 else if c == '}' && before > 0 then before - 1 else before
  }

  /** A comma with a closing brace to come. */
  predicate CommaBefore(s: string, k: nat) {
    k < |s| && s[k] == ',' && '}' in s[k + 1..]
  }

  /** Such a comma separates alternatives when a brace is open there. */
  predicate Separates(s: string, k: nat) {
    CommaBefore(s, k) && Depth(s[..k]) > 0
  }

  lemma NextChar(s: string, i: nat)
    requires i < |s|
    ensures s[..i + 1][..i] == s[..i] && s[..i + 1][i] == s[i] && |s[..i + 1]| == i + 1
    ensures s[i..][0] == s[i] && s[i..][1..] == s[i + 1..]
  {
  }

  /** The test looks for a comma whose nearest brace before it is an opening one. */
  lemma {:induction false} FlagScanFrom(s: string, i: nat)
    requires i <= |s|
    ensures FlagScan(s[i..], AfterOpen(s[..i])) <==> exists k: nat :: i <= k && CommaBefore(s, k) && AfterOpen(s[..k])
    decreases |s| - i
  {
    if i < |s| {
      NextChar(s, i);
      FlagScanFrom(s, i + 1);
      assert CommaBefore(s, i) <==> s[i] == ',' && '}' in s[i + 1..];
    }
  }

  /** The expansion branches at a comma with a brace open. */
  lemma {:induction false} CountScanFrom(s: string, i: nat)
    requires i <= |s|
    ensures CountScan(s[i..], Depth(s[..i])) <==> exists k: nat :: i <= k && Separates(s, k)
    decreases |s| - i
  {
    if i < |s| {
      NextChar(s, i);
      CountScanFrom(s, i + 1);
      assert Separates(s, i) <==> s[i] == ',' && '}' in s[i + 1..] && Depth(s[..i]) > 0;
    }
  }

  lemma {:induction false} AfterOpenIsDeep(s: string)
    requires AfterOpen(s)
    ensures Depth(s) > 0
  {
    if s[|s| - 1] != '{' { AfterOpenIsDeep(s[..|s| - 1]); }
  }

  /** Some comma separates alternatives, but each that does comes after a group that
      was closed within its own: its nearest brace is a closing one. */
  ghost predicate HidesBranch(s: string) {
    && (exists k: nat :: Separates(s, k))
    && (forall k: nat | Separates(s, k) :: !AfterOpen(s[..k]))
  }

  /** The test is right about a pattern exactly when the pattern hides no branch. */
  lemma DetectionExactExactlyWhen(path: string)
    ensures (FlagScan(path, false) <==> |Expand(path)| >= 2) <==> !HidesBranch(path)
  {
    assert path[0..] == path && path[..0] == [];
    FlagScanFrom(path, 0);
    CountScanFrom(path, 0);
    BranchesExactlyWhen(path);
    forall k: nat | CommaBefore(path, k) && AfterOpen(path[..k]) ensures Separates(path, k) {
      AfterOpenIsDeep(path[..k]);
    }
  }

  /** No brace opens inside a group. */
  predicate NeverNested(s: string) {
    forall k | 0 <= k < |s| && s[k] == '{' :: !AfterOpen(s[..k])
  }

  lemma {:induction false} ShallowUnnested(s: string, n: nat)
    requires NeverNested(s) && n <= |s|
    ensures Depth(s[..n]) <= 1 && (Depth(s[..n]) > 0 <==> AfterOpen(s[..n]))
  {
    if n > 0 {
      NextChar(s, n - 1);
      ShallowUnnested(s, n - 1);
    }
  }

  /** In particular on patterns that nest no brace. */
  lemma DetectionExactUnnested(path: string)
    requires NeverNested(path)
    ensures FlagScan(path, false) <==> |Expand(path)| >= 2
  {
    forall k: nat | Separates(path, k) ensures AfterOpen(path[..k]) { ShallowUnnested(path, k); }
    DetectionExactExactlyWhen(path);
  }

  /** A nested brace can hide a branching pattern from the test. */
  lemma DetectionMissesNested()
    ensures !FlagScan("{{}a,b}", false) && |Expand("{{}a,b}")| >= 2
  {
    var s := "{{}a,b}";
    assert s[1..] == "{}a,b}" && s[1..][1..] == "}a,b}" && s[1..][1..][1..] == "a,b}";
    var t := "a,b}";
    FlagWithoutOpen(t);
    assert t[1..] == ",b}" && t[1..][0] == ',';
    assert t[1..][1..][1] == '}';
    assert CountScan(t[1..], 1);
    assert CountScan(s, 0);
    BranchesExactlyWhen(s);
  }

  // ----- What comes out -----

  /** Every produced string is final: it expands to itself and is not announced. */
  lemma {:induction false} OutputsAreFinal(pattern: string)
    ensures forall q | q in Expand(pattern) :: GroupOf(q).NoGroup? && Expand(q) == [q] && !FlagScan(q, false)
    decreases CountChar(pattern, '}'), 1, 0
  {
    if GroupOf(pattern).NoGroup? {
      CountWithoutGroup(pattern);
      if FlagScan(pattern, false) { FlagImpliesCount(pattern, false, 0); }
    } else {
      OutputsAreFinalFrom(pattern, 0);
    }
  }

  lemma {:induction false} OutputsAreFinalFrom(pattern: string, i: nat)
    requires GroupOf(pattern).FirstGroup? && i <= |Split(Inside(pattern), ',')|
    ensures forall q | q in ExpandFrom(pattern, i) :: GroupOf(q).NoGroup? && Expand(q) == [q] && !FlagScan(q, false)
    decreases CountChar(pattern, '}'), 0, |Split(Inside(pattern), ',')| - i
  {
    if i < |Split(Inside(pattern), ',')| {
      OneBraceFewer(pattern, i);
      OutputsAreFinal(Substituted(pattern, Split(Inside(pattern), ',')[i]));
      OutputsAreFinalFrom(pattern, i + 1);
    }
  }
}
