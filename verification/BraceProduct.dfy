/** The order of the expansion of several groups: a mixed-radix number. */
module BraceProduct {
  import opened Basics
  import opened Text
  import opened Braces

  datatype Segment = Literal(text: string) | Group(alternatives: seq<string>)

  /** Text outside groups opens no brace; alternatives hold none of `{`, `}`, `,`. */
  predicate WellFormed(segments: seq<Segment>) {
    forall i | 0 <= i < |segments| ::
      match segments[i]
      case Literal(text) => '{' !in text
      case Group(alternatives) =>
        |alternatives| >= 1 && forall a | 0 <= a < |alternatives| :: Plain(alternatives[a])
  }

  predicate Plain(s: string) {
    '{' !in s && '}' !in s && ',' !in s
  }

  function Render(segments: seq<Segment>): string
    requires WellFormed(segments)
  {
    if segments == [] then []
    else
      match segments[0]
      case Literal(text) => text + Render(segments[1..])
      case Group(alternatives) => ['{'] + Join(alternatives, ',') + ['}'] + Render(segments[1..])
  }

  /** The number of combinations. */
  function Size(segments: seq<Segment>): (n: nat)
    requires WellFormed(segments)
    ensures n >= 1
  {
    if segments == [] then 1
    else if segments[0].Literal? then Size(segments[1..])
    else |segments[0].alternatives| * Size(segments[1..])
  }

  /** Combination `i`: each group takes the digit of `i` at its place, whose weight
      is the product of the sizes of the groups after it. */
  function Pick(segments: seq<Segment>, i: nat): string
    requires WellFormed(segments)
  {
    if segments == [] then []
    else
      match segments[0]
      case Literal(text) => text + Pick(segments[1..], i)
      case Group(alternatives) =>
        alternatives[(i / Size(segments[1..])) % |alternatives|] + Pick(segments[1..], i)
  }

  // ----- Arithmetic -----

  /** Quotient and remainder are unique. */
  lemma DivUnique(x: nat, s: nat, q: nat, r: nat)
    requires s >= 1 && r < s && x == q * s + r
    ensures x / s == q && x % s == r
  {
    var (q', r') := (x / s, x % s);
    assert x == q' * s + r';
    if q' < q {
      assert (q - q') * s == q * s - q' * s;
      MulAtLeast(q - q', s);
    } else if q' > q {
      assert (q' - q) * s == q' * s - q * s;
      MulAtLeast(q' - q, s);
    }
  }

  lemma MulAtLeast(k: nat, s: nat)
    requires k >= 1
    ensures k * s >= s
  {
    assert k * s == (k - 1) * s + s;
  }

  lemma DivAdd(i: nat, q: nat, s: nat)
    requires s >= 1
    ensures (i + q * s) / s == i / s + q
    ensures (i + q * s) % s == i % s
  {
    assert i == (i / s) * s + i % s;
    assert (i / s + q) * s == (i / s) * s + q * s;
    DivUnique(i + q * s, s, i / s + q, i % s);
  }

  lemma DivShift(i: nat, m: nat, n: nat, s: nat)
    requires n >= 1 && s >= 1
    ensures m * (n * s) == (m * n) * s
    ensures ((i + m * (n * s)) / s) % n == (i / s) % n
  {
    DivAdd(i, m * n, s);
    DivAdd(i / s, m, n);
  }

  /** Digits repeat with the number of combinations. */
  lemma {:induction false} PickPeriodic(segments: seq<Segment>, i: nat, m: nat)
    requires WellFormed(segments)
    ensures Pick(segments, i + m * Size(segments)) == Pick(segments, i)
    decreases segments, 1
  {
    if segments != [] {
      var rest := segments[1..];
      match segments[0]
      case Literal(_) => PickPeriodic(rest, i, m);
      case Group(alternatives) => PickPeriodicGroup(segments, i, m);
    }
  }

  lemma {:induction false} PickPeriodicGroup(segments: seq<Segment>, i: nat, m: nat)
    requires WellFormed(segments) && segments != [] && segments[0].Group?
    ensures Pick(segments, i + m * Size(segments)) == Pick(segments, i)
    decreases segments, 0
  {
    var n := |segments[0].alternatives|;
    var weight := Size(segments[1..]);
    DivShift(i, m, n, weight);
    PickPeriodic(segments[1..], i, m * n);
  }

  // ----- The expansion of a rendered pattern -----

  /** The output lists the combinations of the segments in order, each behind `p`. */
  ghost predicate Lists(r: seq<string>, p: string, segments: seq<Segment>)
    requires WellFormed(segments)
  {
    |r| == Size(segments) && forall i | 0 <= i < |r| :: r[i] == p + Pick(segments, i)
  }

  /** The same for the alternatives of a leading group from index `a` on. */
  ghost predicate ListsFrom(r: seq<string>, p: string, segments: seq<Segment>, a: nat)
    requires WellFormed(segments) && segments != [] && segments[0].Group? && a <= |segments[0].alternatives|
  {
    var weight := Size(segments[1..]);
    && |r| == (|segments[0].alternatives| - a) * weight
    && forall i | 0 <= i < |r| :: r[i] == p + Pick(segments, a * weight + i)
  }

  lemma GroupFound(p: string, inside: string, suffix: string)
    requires '{' !in p && '}' !in inside
    ensures var pattern := p + (['{'] + inside + ['}'] + suffix);
            GroupOf(pattern) == FirstGroup(|p|, |p| + 1 + |inside|)
            && Inside(pattern) == inside
            && (forall alternative :: Substituted(pattern, alternative) == p + alternative + suffix)
  {
    var pattern := p + (['{'] + inside + ['}'] + suffix);
    assert pattern[..|p|] == p;
    FirstIndex(pattern, '{', |p|);
    var after := pattern[|p|..];
    assert after == (['{'] + inside) + ['}'] + suffix;
    FindAfter(['{'] + inside, suffix, '}');
    assert pattern[|p| + 1..|p| + 1 + |inside|] == inside;
    assert pattern[|p| + 1 + |inside| + 1..] == suffix;
  }

  lemma {:induction false} JoinedPlain(parts: seq<string>)
    requires |parts| >= 1 && forall a | 0 <= a < |parts| :: Plain(parts[a])
    ensures '}' !in Join(parts, ',')
  {
    if |parts| > 1 { JoinedPlain(parts[1..]); }
  }

  /** For text without `{` before rendered segments the expansion is the product. */
  lemma {:induction false} ExpandLists(p: string, segments: seq<Segment>)
    requires '{' !in p && WellFormed(segments)
    ensures Lists(Expand(p + Render(segments)), p, segments)
    decreases |segments|, 1, 0
  {
    if segments == [] {
      assert p + [] == p;
      assert GroupOf(p).NoGroup?;
    } else {
      var rest := segments[1..];
      match segments[0]
      case Literal(text) =>
        assert p + Render(segments) == (p + text) + Render(rest);
        ExpandLists(p + text, rest);
        forall i | 0 <= i < Size(rest) ensures (p + text) + Pick(rest, i) == p + Pick(segments, i) {}
      case Group(alternatives) =>
        var inside := Join(alternatives, ',');
        JoinedPlain(alternatives);
        GroupFound(p, inside, Render(rest));
        SplitJoin(alternatives, ',');
        assert p + Render(segments) == p + (['{'] + inside + ['}'] + Render(rest));
        ExpandListsFrom(p, segments, 0);
    }
  }

  lemma {:induction false} ExpandListsFrom(p: string, segments: seq<Segment>, a: nat)
    requires '{' !in p && WellFormed(segments) && segments != [] && segments[0].Group?
    requires a <= |segments[0].alternatives|
    requires var pattern := p + Render(segments);
             GroupOf(pattern).FirstGroup? && Split(Inside(pattern), ',') == segments[0].alternatives
             && (forall alternative :: Substituted(pattern, alternative) == p + alternative + Render(segments[1..]))
    ensures ListsFrom(ExpandFrom(p + Render(segments), a), p, segments, a)
    decreases |segments|, 0, |segments[0].alternatives| - a
  {
    var pattern := p + Render(segments);
    var alternatives := segments[0].alternatives;
    var rest := segments[1..];
    if a == |alternatives| {
      assert ExpandFrom(pattern, a) == [];
    } else {
      OneBraceFewer(pattern, a);
      var head := Expand(Substituted(pattern, alternatives[a]));
      ExpandLists(p + alternatives[a], rest);
      ExpandListsFrom(p, segments, a + 1);
      PrependBlock(head, ExpandFrom(pattern, a + 1), p, segments, a);
    }
  }

  lemma BlockSizes(a: nat, weight: nat, n: nat)
    ensures (n - a) * weight == weight + (n - (a + 1)) * weight
    ensures (a + 1) * weight == a * weight + weight
  {
  }

  /** One alternative contributes one block of combinations. */
  lemma PrependBlock(head: seq<string>, tail: seq<string>, p: string, segments: seq<Segment>, a: nat)
    requires WellFormed(segments) && segments != [] && segments[0].Group? && a < |segments[0].alternatives|
    requires Lists(head, p + segments[0].alternatives[a], segments[1..])
    requires ListsFrom(tail, p, segments, a + 1)
    ensures ListsFrom(head + tail, p, segments, a)
  {
    hide Pick, Size;
    var alternatives := segments[0].alternatives;
    var rest := segments[1..];
    var weight := Size(rest);
    var (n, r) := (|alternatives|, head + tail);
    BlockSizes(a, weight, n);
    forall i | 0 <= i < |r| ensures r[i] == p + Pick(segments, a * weight + i) {
      if i < weight {
        PickInBlock(p, segments, a, i);
      } else {
        var j: nat := i - weight;
        assert r[i] == tail[j] && tail[j] == p + Pick(segments, (a + 1) * weight + j);
        assert (a + 1) * weight + j == a * weight + i;
      }
    }
  }

  lemma PickInBlock(p: string, segments: seq<Segment>, a: nat, i: nat)
    requires WellFormed(segments) && segments != [] && segments[0].Group? && a < |segments[0].alternatives|
    requires i < Size(segments[1..])
    ensures (p + segments[0].alternatives[a]) + Pick(segments[1..], i)
         == p + Pick(segments, a * Size(segments[1..]) + i)
  {
    var (rest, alternatives) := (segments[1..], segments[0].alternatives);
    var weight := Size(rest);
    var k: nat := a * weight + i;
    BlockDigit(a, weight, i, |alternatives|);
    PickPeriodic(rest, i, a);
    assert Pick(segments, k) == alternatives[a] + Pick(rest, k);
    assert (p + alternatives[a]) + Pick(rest, i) == p + (alternatives[a] + Pick(rest, i));
  }

  lemma BlockDigit(a: nat, weight: nat, i: nat, n: nat)
    requires i < weight && a < n
    ensures ((a * weight + i) / weight) % n == a
  {
    DivAdd(i, a, weight);
  }

  /** Uncapped: as many strings as there are combinations, in mixed-radix order. */
  lemma ExpansionIsProduct(segments: seq<Segment>)
    requires WellFormed(segments)
    ensures |Expand(Render(segments))| == Size(segments)
    ensures forall i | 0 <= i < Size(segments) :: Expand(Render(segments))[i] == Pick(segments, i)
  {
    ExpandLists([], segments);
    assert [] + Render(segments) == Render(segments);
    forall i | 0 <= i < Size(segments) ensures Expand(Render(segments))[i] == Pick(segments, i) {
      assert [] + Pick(segments, i) == Pick(segments, i);
    }
  }

  /** Capped, as the expander returns it. */
  lemma CappedExpansionIsProduct(segments: seq<Segment>)
    requires WellFormed(segments)
    ensures |Capped(Expand(Render(segments)))| ==
            if Size(segments) <= 1024 then Size(segments) else 1024
    ensures forall i | 0 <= i < |Capped(Expand(Render(segments)))| ::
              Capped(Expand(Render(segments)))[i] == Pick(segments, i)
  {
    ExpansionIsProduct(segments);
  }
}
