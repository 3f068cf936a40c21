/**
 * Python's ordering of `str` values (code point by code point, a proper
 * prefix first) and the two sorts the preprocessing uses: `sorted(set(xs))`
 * on labels and `sorted(xs)` on integer codes.
 */
module Ordering {

  function Elems<T>(s: seq<T>): set<T>
  {
    set x | x in s
  }

  /** Growing a prefix by one element adds that element. */
  lemma ElemsOfLongerPrefix<T>(s: seq<T>, i: nat)
    requires i < |s|
    ensures Elems(s[..i + 1]) == Elems(s[..i]) + {s[i]}
  {
    assert s[..i + 1] == s[..i] + [s[i]];
  }

  /** `a < b` on Python strings. */
  predicate StrLt(a: string, b: string)
    decreases |a|
  {
    |b| > 0 && (|a| == 0 || a[0] < b[0] || (a[0] == b[0] && StrLt(a[1..], b[1..])))
  }

  lemma {:induction false} StrLtIrreflexive(a: string)
    ensures !StrLt(a, a)
    decreases |a|
  {
    if |a| > 0 {
      StrLtIrreflexive(a[1..]);
    }
  }

  lemma {:induction false} StrLtTransitive(a: string, b: string, c: string)
    requires StrLt(a, b) && StrLt(b, c)
    ensures StrLt(a, c)
    decreases |a|
  {
    if |a| > 0 && a[0] == b[0] && b[0] == c[0] {
      StrLtTransitive(a[1..], b[1..], c[1..]);
    }
  }

  lemma {:induction false} StrLtTotal(a: string, b: string)
    ensures a == b || StrLt(a, b) || StrLt(b, a)
    decreases |a|
  {
    if |a| > 0 && |b| > 0 && a[0] == b[0] {
      StrLtTotal(a[1..], b[1..]);
      assert a == [a[0]] + a[1..] && b == [b[0]] + b[1..];
    }
  }

  lemma StrLtIsStrictOrder()
    ensures forall a, b, c :: StrLt(a, b) && StrLt(b, c) ==> StrLt(a, c)
    ensures forall a :: !StrLt(a, a)
  {
    forall a, b, c | StrLt(a, b) && StrLt(b, c)
      ensures StrLt(a, c)
    {
      StrLtTransitive(a, b, c);
    }
    forall a
      ensures !StrLt(a, a)
    {
      StrLtIrreflexive(a);
    }
  }

  /** Strictly increasing: sorted and free of duplicates. */
  predicate StrictlySorted(s: seq<string>)
  {
    forall i, j :: 0 <= i < j < |s| ==> StrLt(s[i], s[j])
  }

  /** Adds `x` to a strictly sorted list, keeping it strictly sorted. */
  function Insert(x: string, s: seq<string>): (r: seq<string>)
    requires StrictlySorted(s)
    ensures StrictlySorted(r)
    ensures Elems(r) == Elems(s) + {x}
  {
    if s == [] then [x]
    else if x == s[0] then s
    else if StrLt(x, s[0]) then
      StrLtIsStrictOrder();
      [x] + s
    else
      StrLtTotal(x, s[0]);
      var t := Insert(x, s[1..]);
      InsertAfterHead(x, s, t);
      [s[0]] + t
  }

  /** The step of `Insert` that keeps the head of the list in front of `x`. */
  lemma InsertAfterHead(x: string, s: seq<string>, t: seq<string>)
    requires StrictlySorted(s) && s != [] && StrLt(s[0], x)
    requires StrictlySorted(t) && Elems(t) == Elems(s[1..]) + {x}
    ensures StrictlySorted([s[0]] + t)
    ensures Elems([s[0]] + t) == Elems(s) + {x}
  {
    var r := [s[0]] + t;
    assert Elems(r) == Elems(s) + {x} by {
      assert Elems(r) == {s[0]} + Elems(t) by {
        assert forall y :: y in r <==> y == s[0] || y in t;
      }
      assert Elems(s) == {s[0]} + Elems(s[1..]) by {
        assert s == [s[0]] + s[1..];
        assert forall y :: y in s <==> y == s[0] || y in s[1..];
      }
    }
    assert StrictlySorted(r) by {
      assert forall y :: y in Elems(t) ==> StrLt(s[0], y);
      forall i, j | 0 <= i < j < |r|
        ensures StrLt(r[i], r[j])
      {
        assert r[j] == t[j - 1];
        if i > 0 {
          assert r[i] == t[i - 1];
        } else {
          assert t[j - 1] in Elems(t);
        }
      }
    }
  }

  /** `sorted(list(set(xs)))`: the elements of `xs`, each once, in increasing order. */
  function SortUnique(xs: seq<string>): (r: seq<string>)
    ensures StrictlySorted(r)
    ensures Elems(r) == Elems(xs)
  {
    if xs == [] then []
    else
      var init := xs[..|xs| - 1];
      assert xs == init + [xs[|xs| - 1]];
      Insert(xs[|xs| - 1], SortUnique(init))
  }

  /**
   * A finite set has exactly one strictly sorted listing, so `SortUnique`
   * depends only on the set of its input's elements.
   */
  lemma {:induction false} StrictlySortedUnique(a: seq<string>, b: seq<string>)
    requires StrictlySorted(a) && StrictlySorted(b) && Elems(a) == Elems(b)
    ensures a == b
  {
    assert |a| > 0 ==> a[0] in Elems(a);
    assert |b| > 0 ==> b[0] in Elems(b);
    if |a| > 0 && |b| > 0 {
      StrLtIsStrictOrder();
      assert a[0] == b[0] by {
        assert forall y :: y in Elems(a) && y != a[0] ==> StrLt(a[0], y);
        assert forall y :: y in Elems(b) && y != b[0] ==> StrLt(b[0], y);
      }
      assert Elems(a[1..]) == Elems(a) - {a[0]} by {
        assert a == [a[0]] + a[1..];
        assert a[0] !in a[1..];
      }
      assert Elems(b[1..]) == Elems(b) - {b[0]} by {
        assert b == [b[0]] + b[1..];
        assert b[0] !in b[1..];
      }
      StrictlySortedUnique(a[1..], b[1..]);
      assert a == [a[0]] + a[1..] && b == [b[0]] + b[1..];
    }
  }

  /** Sorting and deduplicating the same elements in any order, with any repeats, gives the same list. */
  lemma SortUniqueDependsOnlyOnElements(xs: seq<string>, ys: seq<string>)
    requires Elems(xs) == Elems(ys)
    ensures SortUnique(xs) == SortUnique(ys)
  {
    StrictlySortedUnique(SortUnique(xs), SortUnique(ys));
  }

  /** Sorting and deduplicating is idempotent. */
  lemma SortUniqueIdempotent(xs: seq<string>)
    ensures SortUnique(SortUnique(xs)) == SortUnique(xs)
  {
    StrictlySortedUnique(SortUnique(SortUnique(xs)), SortUnique(xs));
  }

  /** Non-decreasing integer sequence. */
  predicate Ascending(s: seq<int>)
  {
    forall i, j :: 0 <= i < j < |s| ==> s[i] <= s[j]
  }

  function InsertInt(x: int, s: seq<int>): (r: seq<int>)
    requires Ascending(s)
    ensures Ascending(r)
    ensures multiset(r) == multiset(s) + multiset{x}
  {
    if s == [] || x <= s[0] then [x] + s
    else
      var rest := InsertInt(x, s[1..]);
      InsertIntAfterHead(x, s, rest);
      [s[0]] + rest
  }

  /** The step of `InsertInt` that keeps the head of the list in front of `x`. */
  lemma InsertIntAfterHead(x: int, s: seq<int>, rest: seq<int>)
    requires Ascending(s) && s != [] && s[0] < x
    requires Ascending(rest) && multiset(rest) == multiset(s[1..]) + multiset{x}
    ensures Ascending([s[0]] + rest)
    ensures multiset([s[0]] + rest) == multiset(s) + multiset{x}
  {
    assert s == [s[0]] + s[1..];
    forall i | 0 <= i < |rest|
      ensures s[0] <= rest[i]
    {
      assert rest[i] in multiset(rest);
      assert rest[i] == x || rest[i] in multiset(s[1..]);
    }
    var r := [s[0]] + rest;
    forall i, j | 0 <= i < j < |r|
      ensures r[i] <= r[j]
    {
      assert r[j] == rest[j - 1];
      if i > 0 {
        assert r[i] == rest[i - 1];
      }
    }
  }

  /** `sorted(xs)` on integers: an ascending permutation of `xs`. */
  function SortInts(xs: seq<int>): (r: seq<int>)
    ensures Ascending(r)
    ensures multiset(r) == multiset(xs)
  {
    if xs == [] then []
    else
      assert xs == xs[..|xs| - 1] + [xs[|xs| - 1]];
      InsertInt(xs[|xs| - 1], SortInts(xs[..|xs| - 1]))
  }
}
