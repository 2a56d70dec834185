/** Sorting with removal of duplicates, under any total order. */
module Sorting {
  ghost predicate TotalOrder<T(!new)>(leq: (T, T) -> bool) {
    && (forall a, b :: leq(a, b) || leq(b, a))
    && (forall a, b :: leq(a, b) && leq(b, a) ==> a == b)
    && (forall a, b, c :: leq(a, b) && leq(b, c) ==> leq(a, c))
  }

  /** Strictly increasing: sorted and free of duplicates. */
  ghost predicate Increasing<T>(s: seq<T>, leq: (T, T) -> bool) {
    forall i, j | 0 <= i < j < |s| :: leq(s[i], s[j]) && s[i] != s[j]
  }

  function Elements<T>(s: seq<T>): set<T> {
    set x | x in s
  }

  function Inserted<T(==)>(x: T, s: seq<T>, leq: (T, T) -> bool): seq<T> {
    if s == [] then [x]
    else if x == s[0] then s
    else if leq(x, s[0]) then [x] + s
    else [s[0]] + Inserted(x, s[1..], leq)
  }

  function SortDedup<T(==)>(s: seq<T>, leq: (T, T) -> bool): seq<T> {
    if s == [] then [] else Inserted(s[0], SortDedup(s[1..], leq), leq)
  }

  lemma {:induction false} InsertedElements<T>(x: T, s: seq<T>, leq: (T, T) -> bool)
    ensures Elements(Inserted(x, s, leq)) == Elements(s) + {x}
  {
    if s != [] {
      assert s == [s[0]] + s[1..];
      ElementsPrepend(s[0], s[1..]);
      ElementsPrepend(x, s);
      if x != s[0] && !leq(x, s[0]) {
        InsertedElements(x, s[1..], leq);
        ElementsPrepend(s[0], Inserted(x, s[1..], leq));
      }
    }
  }

  lemma ElementsPrepend<T>(x: T, s: seq<T>)
    ensures Elements([x] + s) == {x} + Elements(s)
  {
  }

  lemma {:induction false} SortDedupElements<T>(s: seq<T>, leq: (T, T) -> bool)
    ensures Elements(SortDedup(s, leq)) == Elements(s)
  {
    if s != [] {
      SortDedupElements(s[1..], leq);
      InsertedElements(s[0], SortDedup(s[1..], leq), leq);
      assert s == [s[0]] + s[1..];
      ElementsPrepend(s[0], s[1..]);
    }
  }

  lemma PrependIncreasing<T(!new)>(x: T, s: seq<T>, leq: (T, T) -> bool)
    requires Increasing(s, leq) && forall y | y in Elements(s) :: leq(x, y) && x != y
    ensures Increasing([x] + s, leq)
  {
    forall j | 0 <= j < |s| ensures leq(x, s[j]) && x != s[j] {
      assert s[j] in Elements(s);
    }
  }

  lemma {:induction false} InsertedIncreasing<T(!new)>(x: T, s: seq<T>, leq: (T, T) -> bool)
    requires TotalOrder(leq) && Increasing(s, leq)
    ensures Increasing(Inserted(x, s, leq), leq)
    ensures Elements(Inserted(x, s, leq)) == Elements(s) + {x}
  {
    InsertedElements(x, s, leq);
    if s != [] && x != s[0] {
      if leq(x, s[0]) {
        PrependIncreasing(x, s, leq);
      } else {
        InsertedIncreasing(x, s[1..], leq);
        PrependIncreasing(s[0], Inserted(x, s[1..], leq), leq);
      }
    }
  }

  lemma {:induction false} SortDedupIncreasing<T(!new)>(s: seq<T>, leq: (T, T) -> bool)
    requires TotalOrder(leq)
    ensures Increasing(SortDedup(s, leq), leq)
    ensures Elements(SortDedup(s, leq)) == Elements(s)
  {
    if s != [] {
      SortDedupIncreasing(s[1..], leq);
      InsertedIncreasing(s[0], SortDedup(s[1..], leq), leq);
      assert s == [s[0]] + s[1..];
    }
  }

  /** Increasing sequences are determined by their elements. */
  lemma {:induction false} IncreasingUnique<T(!new)>(s: seq<T>, t: seq<T>, leq: (T, T) -> bool)
    requires TotalOrder(leq) && Increasing(s, leq) && Increasing(t, leq)
    requires Elements(s) == Elements(t)
    ensures s == t
    decreases |s|
  {
    assert t != [] ==> t[0] in Elements(t);
    if s != [] {
      assert s[0] in Elements(s);
      assert t != [];
      assert leq(s[0], t[0]) && leq(t[0], s[0]);
      forall x ensures x in Elements(s[1..]) <==> x in Elements(t[1..]) {
        assert s == [s[0]] + s[1..] && t == [t[0]] + t[1..];
        assert x in Elements(s) <==> x == s[0] || x in Elements(s[1..]);
        assert x in Elements(t) <==> x == t[0] || x in Elements(t[1..]);
      }
      IncreasingUnique(s[1..], t[1..], leq);
    }
  }

  /** The result depends on the elements alone, neither on order nor repetition. */
  lemma SortDedupOfElements<T(!new)>(s: seq<T>, t: seq<T>, leq: (T, T) -> bool)
    requires TotalOrder(leq) && Elements(s) == Elements(t)
    ensures SortDedup(s, leq) == SortDedup(t, leq)
  {
    SortDedupIncreasing(s, leq);
    SortDedupIncreasing(t, leq);
    IncreasingUnique(SortDedup(s, leq), SortDedup(t, leq), leq);
  }

  lemma SortDedupFixed<T(!new)>(s: seq<T>, leq: (T, T) -> bool)
    requires TotalOrder(leq) && Increasing(s, leq)
    ensures SortDedup(s, leq) == s
  {
    SortDedupIncreasing(s, leq);
    IncreasingUnique(SortDedup(s, leq), s, leq);
  }

  // ----- Lexicographic order -----

  predicate LexLeq(a: string, b: string) {
    if a == [] then true
    else if b == [] then false
    else if a[0] != b[0] then a[0] < b[0]
    else LexLeq(a[1..], b[1..])
  }

  /** Paths compare component by component. */
  predicate PathLeq(a: seq<string>, b: seq<string>) {
    if a == [] then true
    else if b == [] then false
    else if a[0] != b[0] then LexLeq(a[0], b[0])
    else PathLeq(a[1..], b[1..])
  }

  lemma {:induction false} LexTotal(a: string, b: string)
    ensures LexLeq(a, b) || LexLeq(b, a)
    ensures LexLeq(a, b) && LexLeq(b, a) ==> a == b
  {
    if a != [] && b != [] && a[0] == b[0] {
      LexTotal(a[1..], b[1..]);
      assert a == [a[0]] + a[1..] && b == [b[0]] + b[1..];
    }
  }

  lemma {:induction false} LexTransitive(a: string, b: string, c: string)
    requires LexLeq(a, b) && LexLeq(b, c)
    ensures LexLeq(a, c)
  {
    if a != [] && a[0] == b[0] == c[0] {
      LexTransitive(a[1..], b[1..], c[1..]);
    }
  }

  lemma {:induction false} PathTotal(a: seq<string>, b: seq<string>)
    ensures PathLeq(a, b) || PathLeq(b, a)
    ensures PathLeq(a, b) && PathLeq(b, a) ==> a == b
  {
    if a != [] && b != [] {
      LexTotal(a[0], b[0]);
      if a[0] == b[0] {
        PathTotal(a[1..], b[1..]);
        assert a == [a[0]] + a[1..] && b == [b[0]] + b[1..];
      }
    }
  }

  lemma {:induction false} PathTransitive(a: seq<string>, b: seq<string>, c: seq<string>)
    requires PathLeq(a, b) && PathLeq(b, c)
    ensures PathLeq(a, c)
  {
    if a != [] {
      if a[0] == b[0] == c[0] {
        PathTransitive(a[1..], b[1..], c[1..]);
      } else if a[0] != b[0] && b[0] != c[0] {
        LexTransitive(a[0], b[0], c[0]);
        LexTotal(a[0], b[0]);
      }
    }
  }

  /** The strings are alike before this index and differ there. */
  ghost predicate PartAt<T>(a: seq<T>, b: seq<T>, k: int) {
    0 <= k < |a| && k < |b| && a[..k] == b[..k] && a[k] != b[k]
  }

  lemma PartLater<T>(a: seq<T>, b: seq<T>, k: int)
    requires a != [] && b != [] && a[0] == b[0]
    ensures PartAt(a, b, k + 1) <==> PartAt(a[1..], b[1..], k) || (k == -1 && PartAt(a, b, 0))
    ensures a <= b <==> a[1..] <= b[1..]
  {
    if 0 <= k < |a| - 1 && k < |b| - 1 {
      assert a[..k + 1] == [a[0]] + a[1..][..k] && b[..k + 1] == [b[0]] + b[1..][..k];
    }
    assert a == [a[0]] + a[1..] && b == [b[0]] + b[1..];
  }

  /** Lexicographic order: a prefix comes first, and otherwise the smaller character
      where the strings part. */
  lemma {:induction false} LexLeqExactly(a: string, b: string)
    ensures LexLeq(a, b) <==> a <= b || exists k :: PartAt(a, b, k) && a[k] < b[k]
  {
    if a == [] || b == [] {
    } else if a[0] != b[0] {
      assert PartAt(a, b, 0);
      assert forall k :: PartAt(a, b, k) ==> k == 0;
    } else {
      var (x, y) := (a[1..], b[1..]);
      LexLeqExactly(x, y);
      PartLater(a, b, -1);
      forall k ensures PartAt(a, b, k + 1) <==> PartAt(x, y, k) { PartLater(a, b, k); }
      if k :| PartAt(x, y, k) && x[k] < y[k] { assert PartAt(a, b, k + 1); }
      if k :| PartAt(a, b, k) && a[k] < b[k] { assert PartAt(x, y, k - 1); }
    }
  }

  /** The same for paths: the smaller name where they part. */
  lemma {:induction false} PathLeqExactly(a: seq<string>, b: seq<string>)
    ensures PathLeq(a, b) <==> a <= b || exists k :: PartAt(a, b, k) && LexLeq(a[k], b[k])
  {
    if a == [] || b == [] {
    } else if a[0] != b[0] {
      assert PartAt(a, b, 0);
      assert forall k :: PartAt(a, b, k) ==> k == 0;
    } else {
      var (x, y) := (a[1..], b[1..]);
      PathLeqExactly(x, y);
      PartLater(a, b, -1);
      forall k ensures PartAt(a, b, k + 1) <==> PartAt(x, y, k) { PartLater(a, b, k); }
      if k :| PartAt(x, y, k) && LexLeq(x[k], y[k]) { assert PartAt(a, b, k + 1); }
      if k :| PartAt(a, b, k) && LexLeq(a[k], b[k]) { assert PartAt(x, y, k - 1); }
    }
  }

  lemma LexOrder()
    ensures TotalOrder(LexLeq)
  {
    forall a, b ensures LexLeq(a, b) || LexLeq(b, a) { LexTotal(a, b); }
    forall a, b | LexLeq(a, b) && LexLeq(b, a) ensures a == b { LexTotal(a, b); }
    forall a, b, c | LexLeq(a, b) && LexLeq(b, c) ensures LexLeq(a, c) { LexTransitive(a, b, c); }
  }

  lemma PathOrder()
    ensures TotalOrder(PathLeq)
  {
    forall a, b ensures PathLeq(a, b) || PathLeq(b, a) { PathTotal(a, b); }
    forall a, b | PathLeq(a, b) && PathLeq(b, a) ensures a == b { PathTotal(a, b); }
    forall a, b, c | PathLeq(a, b) && PathLeq(b, c) ensures PathLeq(a, c) { PathTransitive(a, b, c); }
  }
}
