/** Brace expansion of path patterns, and the test that announces it. */
module Braces {
  import opened Basics
  import opened Text

  const MAX_BRACE_EXPANSIONS: nat := 1024

  // ----- Strings -----

  function CountChar(s: string, c: char): nat {
    if s == [] then 0 else (if s[0] == c then 1 else 0) + CountChar(s[1..], c)
  }

  lemma {:induction false} CountConcat(s: string, t: string, c: char)
    ensures CountChar(s + t, c) == CountChar(s, c) + CountChar(t, c)
  {
    if s == [] {
      assert s + t == t;
    } else {
      assert (s + t)[1..] == s[1..] + t;
      CountConcat(s[1..], t, c);
    }
  }

  lemma {:induction false} CountAbsent(s: string, c: char)
    requires c !in s
    ensures CountChar(s, c) == 0
  {
    if s != [] { CountAbsent(s[1..], c); }
  }

  lemma {:induction false} SplitParts(s: string, c: char, d: char)
    ensures forall i | 0 <= i < |Split(s, c)| :: CountChar(Split(s, c)[i], d) <= CountChar(s, d)
    ensures |Split(s, c)| >= 2 <==> c in s
    decreases |s|
  {
    var i := Find(s, c);
    if i.Some? {
      assert s == s[..i.value] + ([c] + s[i.value + 1..]);
      CountConcat(s[..i.value], [c] + s[i.value + 1..], d);
      CountConcat([c], s[i.value + 1..], d);
      SplitParts(s[i.value + 1..], c, d);
    }
  }

  // ----- The first group of a pattern -----

  /** `{` at `open` and the first `}` after it at `close`. */
  datatype FirstGroup = NoGroup | FirstGroup(open: nat, close: nat)

  function GroupOf(pattern: string): (g: FirstGroup)
    ensures g.FirstGroup? ==> g.open < g.close < |pattern|
    ensures g.FirstGroup? ==> pattern[g.open] == '{' && '{' !in pattern[..g.open]
    ensures g.FirstGroup? ==> pattern[g.close] == '}' && '}' !in pattern[g.open + 1..g.close]
  {
    var open := Find(pattern, '{');
    if open.None? then NoGroup
    else
      var close := Find(pattern[open.value..], '}');
      if close.None? then NoGroup
      else
        assert pattern[open.value..][close.value] == '}';
        assert pattern[open.value + 1..open.value + close.value] == pattern[open.value..][..close.value][1..];
        FirstGroup(open.value, open.value + close.value)
  }

  /** The pattern with its first group replaced by one alternative. */
  function Substituted(pattern: string, alternative: string): string
    requires GroupOf(pattern).FirstGroup?
  {
    pattern[..GroupOf(pattern).open] + alternative + pattern[GroupOf(pattern).close + 1..]
  }

  function Inside(pattern: string): string
    requires GroupOf(pattern).FirstGroup?
  {
    pattern[GroupOf(pattern).open + 1..GroupOf(pattern).close]
  }

  /** Each level of the expansion removes exactly one `}`, whatever an alternative
      contains; this is why the recursion ends. */
  lemma OneBraceFewer(pattern: string, i: nat)
    requires GroupOf(pattern).FirstGroup? && i < |Split(Inside(pattern), ',')|
    ensures CountChar(Substituted(pattern, Split(Inside(pattern), ',')[i]), '}') == CountChar(pattern, '}') - 1
  {
    hide CountChar, Split;
    var g := GroupOf(pattern);
    var (prefix, inside, suffix) := (pattern[..g.open], Inside(pattern), pattern[g.close + 1..]);
    var alternative := Split(inside, ',')[i];
    SplitParts(inside, ',', '}');
    CountAbsent(inside, '}');
    CountAlternative(prefix, alternative, suffix);
    CountAround(prefix, inside, suffix);
    assert pattern == prefix + (['{'] + (inside + (['}'] + suffix)));
  }

  lemma CountAlternative(prefix: string, alternative: string, suffix: string)
    ensures CountChar(prefix + alternative + suffix, '}')
         == CountChar(prefix, '}') + CountChar(alternative, '}') + CountChar(suffix, '}')
  {
    CountConcat(prefix, alternative, '}');
    CountConcat(prefix + alternative, suffix, '}');
  }

  lemma CountAround(prefix: string, inside: string, suffix: string)
    ensures CountChar(prefix + (['{'] + (inside + (['}'] + suffix))), '}')
         == CountChar(prefix, '}') + CountChar(inside, '}') + 1 + CountChar(suffix, '}')
  {
    CountConcat(prefix, ['{'] + (inside + (['}'] + suffix)), '}');
    CountConcat(['{'], inside + (['}'] + suffix), '}');
    CountConcat(inside, ['}'] + suffix, '}');
    CountConcat(['}'], suffix, '}');
  }

  // ----- The uncapped expansion -----

  function Expand(pattern: string): (r: seq<string>)
    ensures |r| >= 1
    decreases CountChar(pattern, '}'), 1, 0
  {
    if GroupOf(pattern).NoGroup? then [pattern]
    else
      ExpandFrom(pattern, 0)
  }

  /** The expansions of the alternatives from index `i` on. */
  function ExpandFrom(pattern: string, i: nat): (r: seq<string>)
    requires GroupOf(pattern).FirstGroup? && i <= |Split(Inside(pattern), ',')|
    ensures |r| >= |Split(Inside(pattern), ',')| - i
    decreases CountChar(pattern, '}'), 0, |Split(Inside(pattern), ',')| - i
  {
    var alternatives := Split(Inside(pattern), ',');
    if i == |alternatives| then []
    else
      OneBraceFewer(pattern, i);
      Expand(Substituted(pattern, alternatives[i])) + ExpandFrom(pattern, i + 1)
  }

  /** The longest prefix that respects the cap. */
  function Capped(s: seq<string>): (r: seq<string>)
    ensures |r| <= MAX_BRACE_EXPANSIONS
  {
    if |s| <= MAX_BRACE_EXPANSIONS then s else s[..MAX_BRACE_EXPANSIONS]
  }

  // ----- The expander -----

  class Results {
    var items: seq<string>

    constructor ()
      ensures items == []
    {
      items := [];
    }
  }

  method ExpandBraces(pattern: string) returns (r: seq<string>)
    ensures r == Capped(Expand(pattern))
    ensures 1 <= |r| <= 1024
  {
    var results := new Results();
    ExpandBracesInner(pattern, results);
    assert [] + Expand(pattern) == Expand(pattern);
    r := results.items;
  }

  method ExpandBracesInner(pattern: string, results: Results)
    requires |results.items| <= MAX_BRACE_EXPANSIONS
    modifies results
    ensures results.items == Capped(old(results.items) + Expand(pattern))
    decreases CountChar(pattern, '}')
  {
    if |results.items| >= MAX_BRACE_EXPANSIONS {
      CappedFull(results.items, Expand(pattern));
      return;
    }
    var g := GroupOf(pattern);
    if g.NoGroup? {
      results.items := results.items + [pattern];
      return;
    }
    var alternatives := Split(Inside(pattern), ',');
    hide Capped, CountChar, Split, Substituted;
    ghost var goal := Capped(results.items + ExpandFrom(pattern, 0));
    for i := 0 to |alternatives|
      invariant |results.items| <= MAX_BRACE_EXPANSIONS
      invariant Capped(results.items + ExpandFrom(pattern, i)) == goal
    {
      if |results.items| >= MAX_BRACE_EXPANSIONS {
        CappedFull(results.items, ExpandFrom(pattern, i));
        return;
      }
      OneBraceFewer(pattern, i);
      var replaced := Substituted(pattern, alternatives[i]);
      CappedTurn(pattern, i, results.items);
      ExpandBracesInner(replaced, results);
    }
    assert ExpandFrom(pattern, |alternatives|) == [];
    CappedNothing(results.items);
  }

  /** One turn of the loop: the expansions of one alternative are added as far as
      they fit, and the others after them. */
  lemma CappedTurn(pattern: string, i: nat, items: seq<string>)
    requires GroupOf(pattern).FirstGroup? && i < |Split(Inside(pattern), ',')|
    ensures var more := Expand(Substituted(pattern, Split(Inside(pattern), ',')[i]));
            Capped(items + ExpandFrom(pattern, i)) == Capped(Capped(items + more) + ExpandFrom(pattern, i + 1))
  {
    hide Capped, CountChar, Split, Substituted;
    OneBraceFewer(pattern, i);
    var more := Expand(Substituted(pattern, Split(Inside(pattern), ',')[i]));
    assert ExpandFrom(pattern, i) == more + ExpandFrom(pattern, i + 1);
    CappedTwice(items, more, ExpandFrom(pattern, i + 1));
  }

  lemma CappedNothing(s: seq<string>)
    requires |s| <= MAX_BRACE_EXPANSIONS
    ensures Capped(s + []) == s
  {
    assert s + [] == s;
  }

  lemma CappedFull(s: seq<string>, t: seq<string>)
    requires |s| == MAX_BRACE_EXPANSIONS
    ensures Capped(s + t) == s
  {
    assert (s + t)[..MAX_BRACE_EXPANSIONS] == s;
  }

  lemma CappedTwice(s: seq<string>, t: seq<string>, u: seq<string>)
    ensures Capped(Capped(s + t) + u) == Capped(s + (t + u))
  {
    assert s + (t + u) == (s + t) + u;
    if |s + t| > MAX_BRACE_EXPANSIONS {
      assert ((s + t) + u)[..MAX_BRACE_EXPANSIONS] == (s + t)[..MAX_BRACE_EXPANSIONS];
      CappedFull(Capped(s + t), u);
    }
  }
}
