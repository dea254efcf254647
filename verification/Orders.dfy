/** Total orders, their lexicographic extension, and sorting by them.
    Every canonical list in the repository is produced by one of these sorts, so
    "independent of input order" always comes down to `SortCanonical`. */
module Orders {

  datatype Option<+T> = None | Some(value: T)

  ghost predicate TotalOrder<T(!new)>(leq: (T, T) -> bool) {
    && (forall a :: leq(a, a))
    && (forall a, b :: leq(a, b) && leq(b, a) ==> a == b)
    && (forall a, b, c :: leq(a, b) && leq(b, c) ==> leq(a, c))
    && (forall a, b :: leq(a, b) || leq(b, a))
  }

  ghost predicate AntiSymmetric<T(!new)>(leq: (T, T) -> bool) {
    forall a, b :: leq(a, b) && leq(b, a) ==> a == b
  }

  ghost predicate SortedBy<T>(leq: (T, T) -> bool, s: seq<T>) {
    forall i, j :: 0 <= i < j < |s| ==> leq(s[i], s[j])
  }

  // -------- lexicographic order --------

  predicate LexLeq<T(==)>(leq: (T, T) -> bool, a: seq<T>, b: seq<T>) {
    if a == [] then true
    else if b == [] then false
    else if a[0] == b[0] then LexLeq(leq, a[1..], b[1..])
    else leq(a[0], b[0])
  }

  lemma {:induction false} LexTotal<T(!new)>(leq: (T, T) -> bool, a: seq<T>, b: seq<T>)
    requires TotalOrder(leq)
    ensures LexLeq(leq, a, a)
    ensures LexLeq(leq, a, b) || LexLeq(leq, b, a)
    ensures LexLeq(leq, a, b) && LexLeq(leq, b, a) ==> a == b
  {
    if a != [] {
      LexTotal(leq, a[1..], if b == [] then [] else b[1..]);
      if b != [] && a[0] == b[0] && a[1..] == b[1..] {
        assert a == [a[0]] + a[1..] == b;
      }
    }
  }

  lemma {:induction false} LexTransitive<T(!new)>(leq: (T, T) -> bool, a: seq<T>, b: seq<T>, c: seq<T>)
    requires TotalOrder(leq)
    requires LexLeq(leq, a, b) && LexLeq(leq, b, c)
    ensures LexLeq(leq, a, c)
  {
    if a != [] && a[0] == b[0] == c[0] {
      LexTransitive(leq, a[1..], b[1..], c[1..]);
    }
  }

  /** `a` and `b` first differ at `k`, where `a` is smaller. */
  ghost predicate SmallerAt<T(!new)>(leq: (T, T) -> bool, a: seq<T>, b: seq<T>, k: nat) {
    k < |a| && k < |b| && a[..k] == b[..k] && a[k] != b[k] && leq(a[k], b[k])
  }

  /** The first difference decides, and a prefix comes first. */
  lemma {:induction false} LexExactly<T(!new)>(leq: (T, T) -> bool, a: seq<T>, b: seq<T>)
    ensures LexLeq(leq, a, b) <==> a <= b || exists k :: SmallerAt(leq, a, b, k)
  {
    if a != [] && b != [] {
      forall k: nat | SmallerAt(leq, a, b, k) && k > 0 ensures a[0] == b[0] {
        assert a[..k][0] == b[..k][0];
      }
      if a[0] == b[0] {
        LexExactly(leq, a[1..], b[1..]);
        assert a == [a[0]] + a[1..] && b == [b[0]] + b[1..];
        if k: nat :| SmallerAt(leq, a[1..], b[1..], k) {
          assert a[..k + 1] == [a[0]] + a[1..][..k] && b[..k + 1] == [b[0]] + b[1..][..k];
          assert SmallerAt(leq, a, b, k + 1);
        }
        if k: nat :| SmallerAt(leq, a, b, k) {
          assert a[1..][..k - 1] == a[..k][1..] && b[1..][..k - 1] == b[..k][1..];
          assert SmallerAt(leq, a[1..], b[1..], k - 1);
        }
      } else if leq(a[0], b[0]) {
        assert SmallerAt(leq, a, b, 0);
      }
    }
  }

  predicate CharLeq(a: char, b: char) { a <= b }

  predicate StringLeq(a: string, b: string) { LexLeq(CharLeq, a, b) }

  predicate StringsLeq(a: seq<string>, b: seq<string>) { LexLeq(StringLeq, a, b) }

  /** Strings compare by their first different character, a prefix being smaller. */
  lemma StringLeqExactly(a: string, b: string)
    ensures StringLeq(a, b) <==>
            a <= b || exists k :: 0 <= k < |a| && k < |b| && a[..k] == b[..k] && a[k] < b[k]
  {
    LexExactly(CharLeq, a, b);
    forall k: nat ensures SmallerAt(CharLeq, a, b, k) <==> k < |a| && k < |b| && a[..k] == b[..k] && a[k] < b[k] {}
  }

  lemma StringOrder()
    ensures TotalOrder(StringLeq)
  {
    assert TotalOrder(CharLeq);
    forall a: string, b: string
      ensures StringLeq(a, a)
      ensures StringLeq(a, b) || StringLeq(b, a)
      ensures StringLeq(a, b) && StringLeq(b, a) ==> a == b
    {
      LexTotal(CharLeq, a, b);
    }
    forall a: string, b: string, c: string | StringLeq(a, b) && StringLeq(b, c)
      ensures StringLeq(a, c)
    {
      LexTransitive(CharLeq, a, b, c);
    }
  }

  lemma StringsOrder()
    ensures TotalOrder(StringsLeq)
  {
    StringOrder();
    forall a: seq<string>, b: seq<string>
      ensures StringsLeq(a, a)
      ensures StringsLeq(a, b) || StringsLeq(b, a)
      ensures StringsLeq(a, b) && StringsLeq(b, a) ==> a == b
    {
      LexTotal(StringLeq, a, b);
    }
    forall a: seq<string>, b: seq<string>, c: seq<string> | StringsLeq(a, b) && StringsLeq(b, c)
      ensures StringsLeq(a, c)
    {
      LexTransitive(StringLeq, a, b, c);
    }
  }

  // -------- sorting --------

  function Insert<T>(leq: (T, T) -> bool, x: T, s: seq<T>): (r: seq<T>)
    ensures multiset(r) == multiset(s) + multiset{x}
  {
    if s == [] then [x]
    else if leq(x, s[0]) then [x] + s
    else
      assert s == [s[0]] + s[1..];
      [s[0]] + Insert(leq, x, s[1..])
  }

  function Sort<T>(leq: (T, T) -> bool, s: seq<T>): (r: seq<T>)
    ensures multiset(r) == multiset(s)
  {
    if s == [] then []
    else
      assert s == [s[0]] + s[1..];
      Insert(leq, s[0], Sort(leq, s[1..]))
  }

  lemma {:induction false} InsertSorted<T(!new)>(leq: (T, T) -> bool, x: T, s: seq<T>)
    requires TotalOrder(leq) && SortedBy(leq, s)
    ensures SortedBy(leq, Insert(leq, x, s))
  {
    if s != [] && !leq(x, s[0]) {
      InsertSorted(leq, x, s[1..]);
      var t := Insert(leq, x, s[1..]);
      forall j | 0 <= j < |t| ensures leq(s[0], t[j]) {
        assert t[j] in multiset(t);
        assert t[j] in multiset(s[1..]) || t[j] == x;
      }
    }
  }

  lemma {:induction false} SortSorted<T(!new)>(leq: (T, T) -> bool, s: seq<T>)
    requires TotalOrder(leq)
    ensures SortedBy(leq, Sort(leq, s))
  {
    if s != [] {
      SortSorted(leq, s[1..]);
      InsertSorted(leq, s[0], Sort(leq, s[1..]));
    }
  }

  lemma TailMultiset<T>(s: seq<T>)
    requires s != []
    ensures multiset(s[1..]) == multiset(s) - multiset{s[0]}
  {
    assert s == [s[0]] + s[1..];
  }

  lemma TailSorted<T>(leq: (T, T) -> bool, s: seq<T>)
    requires s != [] && SortedBy(leq, s)
    ensures SortedBy(leq, s[1..])
  {
  }

  lemma SameHeadAndTail<T>(a: seq<T>, b: seq<T>)
    requires a != [] && b != [] && a[0] == b[0] && a[1..] == b[1..]
    ensures a == b
  {
    assert a == [a[0]] + a[1..];
  }

  lemma SameHead<T(!new)>(leq: (T, T) -> bool, a: seq<T>, b: seq<T>)
    requires AntiSymmetric(leq) && SortedBy(leq, a) && SortedBy(leq, b)
    requires a != [] && b != [] && multiset(a) == multiset(b)
    ensures a[0] == b[0]
  {
    assert a[0] in multiset(b) && b[0] in multiset(a);
    var i :| 0 <= i < |b| && b[i] == a[0];
    var j :| 0 <= j < |a| && a[j] == b[0];
    if i != 0 && j != 0 {
      assert leq(a[0], a[j]) && leq(b[0], b[i]);
    }
  }

  /** A sorted sequence is determined by its multiset of elements. */
  lemma {:induction false} SortedUnique<T(!new)>(leq: (T, T) -> bool, a: seq<T>, b: seq<T>)
    requires AntiSymmetric(leq) && SortedBy(leq, a) && SortedBy(leq, b)
    requires multiset(a) == multiset(b)
    ensures a == b
  {
    assert |multiset(a)| == |a| && |multiset(b)| == |b|;
    if a != [] {
      SameHead(leq, a, b);
      TailMultiset(a);
      TailMultiset(b);
      TailSorted(leq, a);
      TailSorted(leq, b);
      SortedUnique(leq, a[1..], b[1..]);
      SameHeadAndTail(a, b);
    }
  }

  lemma SortCanonical<T(!new)>(leq: (T, T) -> bool, a: seq<T>, b: seq<T>)
    requires TotalOrder(leq) && multiset(a) == multiset(b)
    ensures Sort(leq, a) == Sort(leq, b)
  {
    SortSorted(leq, a);
    SortSorted(leq, b);
    SortedUnique(leq, Sort(leq, a), Sort(leq, b));
  }

  lemma SortIdempotent<T(!new)>(leq: (T, T) -> bool, a: seq<T>)
    requires TotalOrder(leq) && SortedBy(leq, a)
    ensures Sort(leq, a) == a
  {
    SortSorted(leq, a);
    SortedUnique(leq, Sort(leq, a), a);
  }

  function Elements<T(!new)>(s: seq<T>): (r: set<T>)
    ensures forall t :: t in r <==> t in s
  {
    set t | t in s
  }

  // -------- filter-map over a sequence --------

  function Collect<A, B>(f: A -> Option<B>, s: seq<A>): (r: seq<B>) {
    if s == [] then []
    else (if f(s[0]).Some? then [f(s[0]).value] else []) + Collect(f, s[1..])
  }

  lemma {:induction false} CollectMember<A, B>(f: A -> Option<B>, s: seq<A>, y: B)
    ensures y in Collect(f, s) <==> exists x :: x in s && f(x) == Some(y)
  {
    if s != [] {
      assert s == [s[0]] + s[1..];
      CollectMember(f, s[1..], y);
    }
  }

  lemma {:induction false} CollectAppend<A, B>(f: A -> Option<B>, a: seq<A>, b: seq<A>)
    ensures Collect(f, a + b) == Collect(f, a) + Collect(f, b)
  {
    if a == [] {
      assert a + b == b;
      assert Collect(f, a) == [];
    } else {
      var head := if f(a[0]).Some? then [f(a[0]).value] else [];
      assert (a + b)[0] == a[0] && (a + b)[1..] == a[1..] + b;
      CollectAppend(f, a[1..], b);
      assert Collect(f, a + b) == head + (Collect(f, a[1..]) + Collect(f, b));
    }
  }

  lemma RemoveAt<A>(s: seq<A>, i: nat)
    requires i < |s|
    ensures multiset(s[..i] + s[i + 1..]) == multiset(s) - multiset{s[i]}
  {
    assert s == s[..i] + ([s[i]] + s[i + 1..]);
  }

  lemma CollectRemoveAt<A, B>(f: A -> Option<B>, s: seq<A>, i: nat)
    requires i < |s|
    ensures multiset(Collect(f, s))
         == multiset(Collect(f, [s[i]])) + multiset(Collect(f, s[..i] + s[i + 1..]))
  {
    assert s == s[..i] + ([s[i]] + s[i + 1..]);
    CollectAppend(f, s[..i], [s[i]] + s[i + 1..]);
    CollectAppend(f, [s[i]], s[i + 1..]);
    CollectAppend(f, s[..i], s[i + 1..]);
  }

  /** Collecting from a permutation gives a permutation. */
  lemma {:induction false} CollectPermuted<A, B>(f: A -> Option<B>, a: seq<A>, b: seq<A>)
    requires multiset(a) == multiset(b)
    ensures multiset(Collect(f, a)) == multiset(Collect(f, b))
  {
    assert |multiset(a)| == |a| && |multiset(b)| == |b|;
    if a != [] {
      assert a[0] in multiset(b);
      var i :| 0 <= i < |b| && b[i] == a[0];
      RemoveAt(b, i);
      TailMultiset(a);
      assert a[..0] + a[1..] == a[1..];
      CollectRemoveAt(f, a, 0);
      CollectRemoveAt(f, b, i);
      CollectPermuted(f, a[1..], b[..i] + b[i + 1..]);
    }
  }
}
