/** Lists that stand for sets: sorted, without repetition. */
module CanonicalLists {
  import opened Orders

  ghost predicate Strict<T(!new)>(leq: (T, T) -> bool, s: seq<T>) {
    forall i, j :: 0 <= i < j < |s| ==> leq(s[i], s[j]) && s[i] != s[j]
  }

  /** Drop repeated neighbours. */
  function Dedup<T(==)>(s: seq<T>): seq<T>
    decreases |s|
  {
    if |s| <= 1 then s
    else if s[0] == s[1] then Dedup(s[1..])
    else [s[0]] + Dedup(s[1..])
  }

  function Canonical<T(==)>(leq: (T, T) -> bool, s: seq<T>): seq<T> { Dedup(Sort(leq, s)) }

  lemma {:induction false} DedupElements<T(!new)>(s: seq<T>)
    ensures Elements(Dedup(s)) == Elements(s)
    ensures s != [] ==> Dedup(s) != [] && Dedup(s)[0] == s[0]
    decreases |s|
  {
    if |s| > 1 {
      DedupElements(s[1..]);
      assert s == [s[0]] + s[1..];
      forall x ensures x in Dedup(s) <==> x in s {
        assert x in Elements(Dedup(s[1..])) <==> x in Elements(s[1..]);
        assert s[1] in s[1..];
      }
    }
  }

  lemma {:induction false} DedupStrict<T(!new)>(leq: (T, T) -> bool, s: seq<T>)
    requires TotalOrder(leq) && SortedBy(leq, s)
    ensures Strict(leq, Dedup(s))
    decreases |s|
  {
    if |s| > 1 {
      TailSorted(leq, s);
      DedupStrict(leq, s[1..]);
      if s[0] != s[1] {
        var t := Dedup(s[1..]);
        forall j | 0 <= j < |t| ensures leq(s[0], t[j]) && s[0] != t[j] {
          DedupElements(s[1..]);
          assert t[j] in Elements(t);
          HeadBelow(leq, s, t[j]);
        }
      }
    }
  }

  lemma HeadBelow<T(!new)>(leq: (T, T) -> bool, s: seq<T>, x: T)
    requires TotalOrder(leq) && SortedBy(leq, s) && |s| > 1 && s[0] != s[1] && x in s[1..]
    ensures leq(s[0], x) && s[0] != x
  {
    var k :| 1 <= k < |s| && s[k] == x;
    assert leq(s[0], s[1]) && (k > 1 ==> leq(s[1], s[k]));
  }

  lemma {:induction false} DistinctMultiset<T(!new)>(s: seq<T>)
    requires forall i, j :: 0 <= i < j < |s| ==> s[i] != s[j]
    ensures multiset(s) == multiset(Elements(s))
    decreases |s|
  {
    if s != [] {
      DistinctMultiset(s[1..]);
      assert s == [s[0]] + s[1..];
      assert s[0] !in s[1..];
      assert Elements(s) == {s[0]} + Elements(s[1..]);
    }
  }

  /** A canonical list is determined by its set of members. */
  lemma StrictUnique<T(!new)>(leq: (T, T) -> bool, a: seq<T>, b: seq<T>)
    requires TotalOrder(leq) && Strict(leq, a) && Strict(leq, b) && Elements(a) == Elements(b)
    ensures a == b
  {
    DistinctMultiset(a);
    DistinctMultiset(b);
    SortedUnique(leq, a, b);
  }

  lemma CanonicalIs<T(!new)>(leq: (T, T) -> bool, s: seq<T>)
    requires TotalOrder(leq)
    ensures Strict(leq, Canonical(leq, s)) && Elements(Canonical(leq, s)) == Elements(s)
  {
    SortSorted(leq, s);
    DedupStrict(leq, Sort(leq, s));
    DedupElements(Sort(leq, s));
    forall x ensures x in Sort(leq, s) <==> x in s {
      assert x in Sort(leq, s) <==> x in multiset(Sort(leq, s));
      assert x in s <==> x in multiset(s);
    }
  }

  /** Two lists have the same canonical form exactly when they have the same members. */
  lemma CanonicalEqual<T(!new)>(leq: (T, T) -> bool, a: seq<T>, b: seq<T>)
    requires TotalOrder(leq)
    ensures Canonical(leq, a) == Canonical(leq, b) <==> Elements(a) == Elements(b)
  {
    CanonicalIs(leq, a);
    CanonicalIs(leq, b);
    if Elements(a) == Elements(b) {
      StrictUnique(leq, Canonical(leq, a), Canonical(leq, b));
    }
  }

  /** Sorting the members of a set, taken out in any order. */
  method ListOf(s: set<string>) returns (r: seq<string>)
    ensures Elements(r) == s && Strict(StringLeq, r)
  {
    var rest, taken := s, [];
    while rest != {}
      invariant rest <= s && Elements(taken) == s - rest
      invariant forall i, j :: 0 <= i < j < |taken| ==> taken[i] != taken[j]
      decreases rest
    {
      var x :| x in rest;
      assert x !in Elements(taken);
      assert forall i :: 0 <= i < |taken| ==> taken[i] in taken;
      taken, rest := taken + [x], rest - {x};
    }
    r := Sort(StringLeq, taken);
    StringOrder();
    DistinctSort(taken);
  }

  lemma DistinctSort(s: seq<string>)
    requires forall i, j :: 0 <= i < j < |s| ==> s[i] != s[j]
    requires TotalOrder(StringLeq)
    ensures Strict(StringLeq, Sort(StringLeq, s)) && Elements(Sort(StringLeq, s)) == Elements(s)
  {
    var t := Canonical(StringLeq, s);
    CanonicalIs(StringLeq, s);
    DistinctMultiset(t);
    DistinctMultiset(s);
    SortSorted(StringLeq, s);
    SortedUnique(StringLeq, t, Sort(StringLeq, s));
  }
}
