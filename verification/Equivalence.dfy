/** Authority-equivalence classes of composed candidates. */
module Equivalence {
  import opened Orders
  import opened CanonicalLists
  import opened GrantChain

  datatype ClassId = ClassId(allowed: seq<ActionId>, approval: seq<ActionId>, denied: seq<ActionId>,
                             channels: seq<string>, limits: GrantLimits)

  datatype Candidate<T> = Candidate(id: string, grant: TaskGrant, value: T)

  function ClassOf(g: TaskGrant): ClassId {
    ClassId(Canonical(StringLeq, g.root.allowedActions), Canonical(StringLeq, g.root.approvalRequiredActions),
            Canonical(StringLeq, g.root.deniedActions), Canonical(StringLeq, g.root.outputChannels), g.root.limits)
  }

  // -------- the order on class identities --------

  datatype Ordering = Less | Equal | Greater {
    function ThenWith(next: Ordering): Ordering { if this.Equal? then next else this }
  }

  function CompareLists(a: seq<string>, b: seq<string>): Ordering {
    if a == b then Equal else if StringsLeq(a, b) then Less else Greater
  }

  function CompareNats(a: nat, b: nat): Ordering {
    if a == b then Equal else if a < b then Less else Greater
  }

  function CompareLimits(a: GrantLimits, b: GrantLimits): Ordering {
    CompareNats(a.maxModelCalls, b.maxModelCalls)
    .ThenWith(CompareNats(a.maxArtifacts, b.maxArtifacts))
    .ThenWith(CompareNats(a.maxRuntimeSeconds, b.maxRuntimeSeconds))
  }

  function Compare(a: ClassId, b: ClassId): Ordering {
    CompareLists(a.allowed, b.allowed)
    .ThenWith(CompareLists(a.approval, b.approval))
    .ThenWith(CompareLists(a.denied, b.denied))
    .ThenWith(CompareLists(a.channels, b.channels))
    .ThenWith(CompareLimits(a.limits, b.limits))
  }

  predicate ClassLeq(a: ClassId, b: ClassId) { !Compare(a, b).Greater? }

  /** Laws of one comparison step at three points. */
  ghost predicate Lawful(ab: Ordering, ba: Ordering, bc: Ordering, ac: Ordering, same: bool) {
    && (ab.Equal? <==> same) && (ab.Less? <==> ba.Greater?) && (ab.Greater? <==> ba.Less?)
    && (!ab.Greater? && !bc.Greater? ==> !ac.Greater?)
    && (!ab.Greater? && !bc.Greater? && ac.Equal? ==> ab.Equal? && bc.Equal?)
  }

  ghost predicate ListsLawful(a: seq<string>, b: seq<string>, c: seq<string>) {
    Lawful(CompareLists(a, b), CompareLists(b, a), CompareLists(b, c), CompareLists(a, c), a == b)
  }

  lemma ListLaws(a: seq<string>, b: seq<string>, c: seq<string>)
    requires TotalOrder(StringsLeq)
    ensures ListsLawful(a, b, c)
  {
  }

  lemma LimitLaws(a: GrantLimits, b: GrantLimits, c: GrantLimits)
    ensures Lawful(CompareLimits(a, b), CompareLimits(b, a), CompareLimits(b, c), CompareLimits(a, c), a == b)
  {
  }

  lemma ClassLaws(a: ClassId, b: ClassId, c: ClassId)
    requires TotalOrder(StringsLeq)
    ensures Lawful(Compare(a, b), Compare(b, a), Compare(b, c), Compare(a, c), a == b)
  {
    ListLaws(a.allowed, b.allowed, c.allowed);
    ListLaws(a.approval, b.approval, c.approval);
    ListLaws(a.denied, b.denied, c.denied);
    ListLaws(a.channels, b.channels, c.channels);
    LimitLaws(a.limits, b.limits, c.limits);
  }

  /** The class ordering is a total order, and compares equal exactly on equal classes. */
  lemma ClassOrder()
    ensures TotalOrder(ClassLeq)
    ensures forall a, b :: Compare(a, b).Equal? <==> a == b
  {
    StringsOrder();
    forall a: ClassId, b: ClassId, c: ClassId
      ensures ClassLeq(a, a) && (ClassLeq(a, b) || ClassLeq(b, a))
      ensures ClassLeq(a, b) && ClassLeq(b, a) ==> a == b
      ensures ClassLeq(a, b) && ClassLeq(b, c) ==> ClassLeq(a, c)
      ensures Compare(a, b).Equal? <==> a == b
    {
      ClassLaws(a, b, c);
      ClassLaws(a, a, a);
    }
  }

  ghost predicate LimitsLeq(a: GrantLimits, b: GrantLimits) {
    if a.maxModelCalls != b.maxModelCalls then a.maxModelCalls < b.maxModelCalls
    else if a.maxArtifacts != b.maxArtifacts then a.maxArtifacts < b.maxArtifacts
    else a.maxRuntimeSeconds <= b.maxRuntimeSeconds
  }

  /** What the order compares: the allowed actions first, then those needing approval, the denied
      ones, the channels, and the limits in their order. */
  lemma ClassOrderExactly(a: ClassId, b: ClassId)
    ensures ClassLeq(a, b) <==>
            if a.allowed != b.allowed then StringsLeq(a.allowed, b.allowed)
            else if a.approval != b.approval then StringsLeq(a.approval, b.approval)
            else if a.denied != b.denied then StringsLeq(a.denied, b.denied)
            else if a.channels != b.channels then StringsLeq(a.channels, b.channels)
            else LimitsLeq(a.limits, b.limits)
  {
  }

  /** Two grants share a class exactly when their action sets, channel sets and limits agree,
      however the lists are ordered or repeated. */
  lemma SameClassExactly(g: TaskGrant, h: TaskGrant)
    ensures ClassOf(g) == ClassOf(h) <==>
            && Elements(g.root.allowedActions) == Elements(h.root.allowedActions)
            && Elements(g.root.approvalRequiredActions) == Elements(h.root.approvalRequiredActions)
            && Elements(g.root.deniedActions) == Elements(h.root.deniedActions)
            && Elements(g.root.outputChannels) == Elements(h.root.outputChannels)
            && g.root.limits == h.root.limits
  {
    StringOrder();
    CanonicalEqual(StringLeq, g.root.allowedActions, h.root.allowedActions);
    CanonicalEqual(StringLeq, g.root.approvalRequiredActions, h.root.approvalRequiredActions);
    CanonicalEqual(StringLeq, g.root.deniedActions, h.root.deniedActions);
    CanonicalEqual(StringLeq, g.root.outputChannels, h.root.outputChannels);
  }

  // -------- grouping --------

  predicate IdLeq<T>(a: Candidate<T>, b: Candidate<T>) { StringLeq(a.id, b.id) }

  function Ids<T>(cs: seq<Candidate<T>>): seq<string> { seq(|cs|, k requires 0 <= k < |cs| => cs[k].id) }

  function FirstRepeat(ids: seq<string>): Option<string>
    decreases |ids|
  {
    if |ids| <= 1 then None
    else if ids[0] == ids[1] then Some(ids[0])
    else FirstRepeat(ids[1..])
  }

  function ClassOfCandidate<T>(c: Candidate<T>): ClassId { ClassOf(c.grant) }

  /** The members of one group, in the order given. */
  function Members<C, K(==)>(of: C -> K, cs: seq<C>, k: K): seq<C>
    decreases |cs|
  {
    if cs == [] then []
    else Members(of, cs[..|cs| - 1], k) + if of(cs[|cs| - 1]) == k then [cs[|cs| - 1]] else []
  }

  function Keys<C, K(==)>(of: C -> K, cs: seq<C>): set<K>
    decreases |cs|
  {
    if cs == [] then {} else Keys(of, cs[..|cs| - 1]) + {of(cs[|cs| - 1])}
  }

  ghost function Grouped<C, K(!new)>(of: C -> K, cs: seq<C>): map<K, seq<C>> {
    map k | k in Keys(of, cs) :: Members(of, cs, k)
  }

  type Classes<!T> = map<ClassId, seq<Candidate<T>>>

  datatype Grouping<!T> = Grouping(classes: Classes<T>) | DuplicateCandidateId(id: string)

  ghost function Outcome<T>(candidates: seq<Candidate<T>>): Grouping<T> {
    var sorted := Sort(IdLeq, candidates);
    match FirstRepeat(Ids(sorted))
    case Some(id) => DuplicateCandidateId(id)
    case None => Grouping(Grouped(ClassOfCandidate, sorted))
  }

  /** Sort by id, refuse a repeated id, then append each candidate to its class. */
  method FromCandidates<T>(candidates: seq<Candidate<T>>) returns (r: Grouping<T>)
    ensures r == Outcome(candidates)
  {
    var sorted := Sort(IdLeq, candidates);
    var repeat_ := CheckRepeats(sorted);
    if repeat_.Some? { return DuplicateCandidateId(repeat_.value); }
    var classes: Classes<T> := map[];
    for j := 0 to |sorted|
      invariant classes == Grouped(ClassOfCandidate, sorted[..j])
    {
      var c := sorted[j];
      var k := ClassOf(c.grant);
      GroupedSnoc(ClassOfCandidate, sorted, j);
      classes := classes[k := (if k in classes then classes[k] else []) + [c]];
    }
    assert sorted[..|sorted|] == sorted;
    r := Grouping(classes);
  }

  method CheckRepeats<T>(sorted: seq<Candidate<T>>) returns (r: Option<string>)
    ensures r == FirstRepeat(Ids(sorted))
  {
    var ids := Ids(sorted);
    assert ids[0..] == ids;
    for j := 0 to |sorted| - (if sorted == [] then 0 else 1)
      invariant FirstRepeat(ids) == FirstRepeat(ids[j..])
    {
      assert ids[j..][1..] == ids[j + 1..];
      if sorted[j].id == sorted[j + 1].id { return Some(sorted[j].id); }
    }
    r := None;
  }

  lemma {:induction false} MembersEmpty<C, K(!new)>(of: C -> K, cs: seq<C>, k: K)
    ensures Members(of, cs, k) == [] <==> k !in Keys(of, cs)
    decreases |cs|
  {
    if cs != [] {
      MembersEmpty(of, cs[..|cs| - 1], k);
    }
  }

  /** Appending one element touches only its own group. */
  lemma GroupedSnoc<C, K(!new)>(of: C -> K, cs: seq<C>, j: nat)
    requires j < |cs|
    ensures var old_, k := Grouped(of, cs[..j]), of(cs[j]);
            Grouped(of, cs[..j + 1]) == old_[k := (if k in old_ then old_[k] else []) + [cs[j]]]
  {
    var less, more := cs[..j], cs[..j + 1];
    assert more[..j] == less && more[j] == cs[j];
    var k := of(cs[j]);
    MembersEmpty(of, less, k);
    var old_ := Grouped(of, less);
    var new_ := old_[k := (if k in old_ then old_[k] else []) + [cs[j]]];
    assert Grouped(of, more).Keys == new_.Keys;
    forall q | q in new_ ensures Grouped(of, more)[q] == new_[q] {
      assert Members(of, more, q) == Members(of, less, q) + if k == q then [cs[j]] else [];
    }
  }

  lemma {:induction false} MembersExactly<C, K(!new)>(of: C -> K, cs: seq<C>, k: K, c: C)
    ensures c in Members(of, cs, k) <==> c in cs && of(c) == k
    decreases |cs|
  {
    if cs != [] {
      MembersExactly(of, cs[..|cs| - 1], k, c);
      assert cs == cs[..|cs| - 1] + [cs[|cs| - 1]];
    }
  }

  lemma {:induction false} KeysExactly<C(!new), K(!new)>(of: C -> K, cs: seq<C>, k: K)
    ensures k in Keys(of, cs) <==> exists c :: c in cs && of(c) == k
    decreases |cs|
  {
    if cs != [] {
      KeysExactly(of, cs[..|cs| - 1], k);
      assert cs == cs[..|cs| - 1] + [cs[|cs| - 1]];
    }
  }

  // -------- the grouping is a partition, whatever the order --------

  lemma SortedIds<T(!new)>(cs: seq<Candidate<T>>)
    ensures SortedBy(StringLeq, Ids(Sort(IdLeq, cs))) && multiset(Sort(IdLeq, cs)) == multiset(cs)
  {
    StringOrder();
    SortByIdSorted(cs);
  }

  lemma {:induction false} SortByIdSorted<T(!new)>(cs: seq<Candidate<T>>)
    requires TotalOrder(StringLeq)
    ensures SortedBy(IdLeq, Sort(IdLeq, cs))
    decreases |cs|
  {
    if cs != [] {
      SortByIdSorted(cs[1..]);
      InsertById(cs[0], Sort(IdLeq, cs[1..]));
    }
  }

  lemma {:induction false} InsertById<T(!new)>(x: Candidate<T>, s: seq<Candidate<T>>)
    requires TotalOrder(StringLeq) && SortedBy(IdLeq, s)
    ensures SortedBy(IdLeq, Insert(IdLeq, x, s))
    decreases |s|
  {
    if s != [] && !IdLeq(x, s[0]) {
      InsertById(x, s[1..]);
      var t := Insert(IdLeq, x, s[1..]);
      forall j | 0 <= j < |t| ensures IdLeq(s[0], t[j]) {
        assert t[j] in multiset(t);
        assert t[j] in multiset(s[1..]) || t[j] == x;
      }
    }
  }

  function IdOf<T>(c: Candidate<T>): Option<string> { Some(c.id) }

  lemma {:induction false} IdsCollected<T>(cs: seq<Candidate<T>>)
    ensures Ids(cs) == Collect(IdOf, cs)
    decreases |cs|
  {
    if cs != [] {
      IdsCollected(cs[1..]);
      assert Ids(cs) == [cs[0].id] + Ids(cs[1..]);
    }
  }

  lemma IdsPermuted<T>(a: seq<Candidate<T>>, b: seq<Candidate<T>>)
    requires multiset(a) == multiset(b)
    ensures multiset(Ids(a)) == multiset(Ids(b))
  {
    IdsCollected(a);
    IdsCollected(b);
    CollectPermuted(IdOf, a, b);
  }

  ghost predicate Distinct(ids: seq<string>) { forall i, j :: 0 <= i < j < |ids| ==> ids[i] != ids[j] }

  lemma NewHeadDistinct(ids: seq<string>)
    requires ids != [] && Distinct(ids[1..]) && ids[0] !in ids[1..]
    ensures Distinct(ids)
  {
    forall i, j | 0 <= i < j < |ids| ensures ids[i] != ids[j] {
      assert ids[j] == ids[1..][j - 1];
      if i > 0 { assert ids[i] == ids[1..][i - 1]; }
    }
  }

  lemma TailDistinct(ids: seq<string>)
    requires ids != [] && Distinct(ids)
    ensures Distinct(ids[1..]) && ids[0] !in ids[1..]
  {
  }

  /** A repeated id is no smaller than the first one, and is repeated further on unless it is that. */
  lemma LeastRepeat(ids: seq<string>)
    requires TotalOrder(StringLeq) && SortedBy(StringLeq, ids) && |ids| > 1
    ensures forall d :: multiset(ids)[d] >= 2 ==>
              StringLeq(ids[0], d) && (ids[0] != ids[1] ==> multiset(ids[1..])[d] >= 2)
  {
    assert ids == [ids[0]] + ids[1..];
    forall d | multiset(ids)[d] >= 2
      ensures StringLeq(ids[0], d) && (ids[0] != ids[1] ==> multiset(ids[1..])[d] >= 2)
    {
      assert d in ids;
      if ids[0] != ids[1] && d in ids[1..] { HeadBelow(StringLeq, ids, d); }
    }
  }

  lemma {:induction false} FirstRepeatExactly(ids: seq<string>)
    requires TotalOrder(StringLeq) && SortedBy(StringLeq, ids)
    ensures FirstRepeat(ids).None? <==> Distinct(ids)
    ensures FirstRepeat(ids).Some? ==> multiset(ids)[FirstRepeat(ids).value] >= 2
    ensures FirstRepeat(ids).Some? ==> forall d :: multiset(ids)[d] >= 2 ==> StringLeq(FirstRepeat(ids).value, d)
    decreases |ids|
  {
    if |ids| > 1 {
      TailSorted(StringLeq, ids);
      FirstRepeatExactly(ids[1..]);
      assert ids == [ids[0]] + ids[1..];
      LeastRepeat(ids);
      if ids[0] == ids[1] {
        assert ids[1..] == [ids[1]] + ids[2..];
      } else if Distinct(ids[1..]) {
        forall x | x in ids[1..] ensures x != ids[0] { HeadBelow(StringLeq, ids, x); }
        NewHeadDistinct(ids);
      } else if Distinct(ids) {
        TailDistinct(ids);
      }
    }
  }

  /** With distinct ids, the order by id fixes the whole sequence. */
  lemma SameByIds<T(!new)>(a: seq<Candidate<T>>, b: seq<Candidate<T>>)
    requires multiset(a) == multiset(b) && Ids(a) == Ids(b) && Distinct(Ids(a))
    ensures a == b
  {
    assert |a| == |Ids(a)| == |Ids(b)| == |b|;
    forall i | 0 <= i < |a| ensures a[i] == b[i] {
      assert a[i] in multiset(b);
      var j :| 0 <= j < |b| && b[j] == a[i];
      assert Ids(b)[j] == Ids(a)[i] == Ids(b)[i];
    }
  }

  /** Grouping does not depend on the order of the candidates, nor does its error. */
  lemma GroupingIsOrderFree<T(!new)>(a: seq<Candidate<T>>, b: seq<Candidate<T>>)
    requires multiset(a) == multiset(b)
    ensures Outcome(a) == Outcome(b)
  {
    var x, y := Sort(IdLeq, a), Sort(IdLeq, b);
    SortedIds(a);
    SortedIds(b);
    IdsPermuted(x, y);
    StringOrder();
    SortedUnique(StringLeq, Ids(x), Ids(y));
    FirstRepeatExactly(Ids(x));
    if FirstRepeat(Ids(x)).None? {
      SameByIds(x, y);
    }
  }

  lemma {:induction false} DistinctCount(ids: seq<string>, id: string)
    ensures Distinct(ids) ==> multiset(ids)[id] <= 1
    ensures !Distinct(ids) ==> exists d :: multiset(ids)[d] >= 2
    decreases |ids|
  {
    if ids != [] {
      var rest := ids[1..];
      assert ids == [ids[0]] + rest;
      DistinctCount(rest, id);
      if Distinct(ids) {
        TailDistinct(ids);
      } else if Distinct(rest) {
        if ids[0] !in rest {
          NewHeadDistinct(ids);
        } else {
          assert multiset(ids)[ids[0]] >= 2;
        }
      } else {
        var d :| multiset(rest)[d] >= 2;
        assert multiset(ids)[d] >= 2;
      }
    }
  }

  /** A repeated id is refused, by naming the least that is repeated; otherwise none is. */
  lemma DuplicatesExactly<T(!new)>(cs: seq<Candidate<T>>)
    ensures Outcome(cs).Grouping? <==> Distinct(Ids(cs))
    ensures Outcome(cs).DuplicateCandidateId? ==>
              && multiset(Ids(cs))[Outcome(cs).id] >= 2
              && forall d :: multiset(Ids(cs))[d] >= 2 ==> StringLeq(Outcome(cs).id, d)
  {
    var sorted := Sort(IdLeq, cs);
    SortedIds(cs);
    StringOrder();
    FirstRepeatExactly(Ids(sorted));
    IdsPermuted(sorted, cs);
    if Distinct(Ids(cs)) && !Distinct(Ids(sorted)) {
      DistinctCount(Ids(sorted), "");
      var d :| multiset(Ids(sorted))[d] >= 2;
      DistinctCount(Ids(cs), d);
    }
    if Distinct(Ids(sorted)) && !Distinct(Ids(cs)) {
      DistinctCount(Ids(cs), "");
      var d :| multiset(Ids(cs))[d] >= 2;
      DistinctCount(Ids(sorted), d);
    }
  }

  /** Each element is in its own group and in no other, and no group is empty or has a member
      from outside. */
  ghost predicate Partitions<C(!new), K(!new)>(of: C -> K, cs: seq<C>, groups: map<K, seq<C>>) {
    && (forall k :: k in groups ==> groups[k] != [])
    && (forall k, c :: k in groups && c in groups[k] ==> c in cs && of(c) == k)
    && (forall c :: c in cs ==> of(c) in groups && c in groups[of(c)])
  }

  lemma GroupedPartitions<C(!new), K(!new)>(of: C -> K, cs: seq<C>)
    ensures Partitions(of, cs, Grouped(of, cs))
  {
    var groups := Grouped(of, cs);
    forall k | k in groups ensures groups[k] != [] {
      MembersEmpty(of, cs, k);
    }
    forall k, c | k in groups && c in groups[k] ensures c in cs && of(c) == k {
      MembersExactly(of, cs, k, c);
    }
    forall c | c in cs ensures of(c) in groups && c in groups[of(c)] {
      KeysExactly(of, cs, of(c));
      MembersExactly(of, cs, of(c), c);
    }
  }

  lemma PartitionsPermuted<C(!new), K(!new)>(of: C -> K, a: seq<C>, b: seq<C>, groups: map<K, seq<C>>)
    requires Partitions(of, a, groups) && multiset(a) == multiset(b)
    ensures Partitions(of, b, groups)
  {
    forall c ensures c in a <==> c in b {
      assert c in a <==> c in multiset(a);
      assert c in b <==> c in multiset(b);
    }
  }

  predicate IdBefore<T>(a: Candidate<T>, b: Candidate<T>) { StringLeq(a.id, b.id) && a.id != b.id }

  /** A group keeps the order of the whole. */
  lemma {:induction false} MembersInOrder<C(!new), K(!new)>(of: C -> K, cs: seq<C>, k: K, before: (C, C) -> bool)
    requires SortedBy(before, cs)
    ensures SortedBy(before, Members(of, cs, k))
    decreases |cs|
  {
    if cs != [] {
      var front, last := cs[..|cs| - 1], cs[|cs| - 1];
      MembersInOrder(of, front, k, before);
      forall c | c in Members(of, front, k) ensures before(c, last) {
        MembersExactly(of, front, k, c);
      }
    }
  }

  lemma StrictlyById<T(!new)>(cs: seq<Candidate<T>>)
    requires Outcome(cs).Grouping?
    ensures SortedBy(IdBefore, Sort(IdLeq, cs))
  {
    var sorted := Sort(IdLeq, cs);
    SortedIds(cs);
    StringOrder();
    FirstRepeatExactly(Ids(sorted));
    forall i, j | 0 <= i < j < |sorted| ensures IdBefore(sorted[i], sorted[j]) {
      assert Ids(sorted)[i] == sorted[i].id && Ids(sorted)[j] == sorted[j].id;
    }
  }

  /** The classes partition the candidates, each class strictly ordered by id. */
  lemma GroupingPartitions<T(!new)>(cs: seq<Candidate<T>>)
    requires Outcome(cs).Grouping?
    ensures Partitions(ClassOfCandidate, cs, Outcome(cs).classes)
    ensures forall k :: k in Outcome(cs).classes ==> SortedBy(IdBefore, Outcome(cs).classes[k])
  {
    var sorted := Sort(IdLeq, cs);
    GroupedPartitions(ClassOfCandidate, sorted);
    PartitionsPermuted(ClassOfCandidate, sorted, cs, Grouped(ClassOfCandidate, sorted));
    StrictlyById(cs);
    forall k | k in Outcome(cs).classes ensures SortedBy(IdBefore, Outcome(cs).classes[k]) {
      MembersInOrder(ClassOfCandidate, sorted, k, IdBefore);
    }
  }

  // -------- resolution --------

  datatype Resolution<!T> = NoMatch | Selected(id: ClassId, members: seq<Candidate<T>>) | Escalate(ids: seq<ClassId>)

  /** The matching ids that name a class. */
  ghost function Known<T>(classes: Classes<T>, matching: set<ClassId>): set<ClassId> { classes.Keys * matching }

  /** No class, the only class, or all of them in order. */
  ghost predicate Resolves<T>(classes: Classes<T>, matching: set<ClassId>, r: Resolution<T>) {
    match r
    case NoMatch => Known(classes, matching) == {}
    case Selected(id, members) => Known(classes, matching) == {id} && members == classes[id]
    case Escalate(ids) =>
      |Known(classes, matching)| >= 2 && Elements(ids) == Known(classes, matching) && Strict(ClassLeq, ids)
  }

  /** Keep the ids that name a class, then sort and drop repetitions. */
  method KnownIds<T>(classes: Classes<T>, matching: seq<ClassId>) returns (known: seq<ClassId>)
    ensures Elements(known) == Known(classes, Elements(matching)) && Strict(ClassLeq, known)
  {
    known := [];
    for j := 0 to |matching|
      invariant forall k :: k in known <==> k in classes && k in matching[..j]
    {
      assert matching[..j + 1] == matching[..j] + [matching[j]];
      if matching[j] in classes { known := known + [matching[j]]; }
    }
    assert matching[..|matching|] == matching;
    ClassOrder();
    CanonicalIs(ClassLeq, known);
    known := Canonical(ClassLeq, known);
  }

  method Resolve<T>(classes: Classes<T>, matching: seq<ClassId>) returns (r: Resolution<T>)
    ensures Resolves(classes, Elements(matching), r)
  {
    var known := KnownIds(classes, matching);
    StrictSize(known);
    if |known| == 0 {
      r := NoMatch;
    } else if |known| == 1 {
      var id := known[0];
      assert Elements(known) == {id};
      if id !in classes { assert false; }
      r := Selected(id, classes[id]);
    } else {
      r := Escalate(known);
    }
  }

  lemma {:induction false} StrictSize(s: seq<ClassId>)
    requires Strict(ClassLeq, s)
    ensures |Elements(s)| == |s|
    decreases |s|
  {
    if s != [] {
      StrictSize(s[1..]);
      assert s == [s[0]] + s[1..];
      assert s[0] !in s[1..];
      assert Elements(s) == {s[0]} + Elements(s[1..]);
    }
  }

  /** Resolution depends on the set of matching ids only, not on order or repetition. */
  lemma ResolutionIsOrderFree<T>(classes: Classes<T>, a: seq<ClassId>, b: seq<ClassId>, r: Resolution<T>,
                                 r': Resolution<T>)
    requires Elements(a) == Elements(b) && Resolves(classes, Elements(a), r) && Resolves(classes, Elements(b), r')
    ensures r == r'
  {
    if r.Escalate? && r'.Escalate? {
      ClassOrder();
      StrictUnique(ClassLeq, r.ids, r'.ids);
    }
  }

  /** The chooser sees one class and answers with an index. */
  function SelectWithinClass<T>(id: ClassId, members: seq<Candidate<T>>,
                                chooser: (ClassId, seq<Candidate<T>>) -> Option<nat>): Option<Candidate<T>> {
    match chooser(id, members)
    case None => None
    case Some(index) => if index < |members| then Some(members[index]) else None
  }

  /** A member is selected exactly if the chooser answers with the position of one, and it is that. */
  lemma SelectsExactly<T(!new)>(id: ClassId, members: seq<Candidate<T>>,
                                chooser: (ClassId, seq<Candidate<T>>) -> Option<nat>, c: Candidate<T>)
    ensures SelectWithinClass(id, members, chooser) == Some(c) <==>
            exists k :: 0 <= k < |members| && members[k] == c && chooser(id, members) == Some(k)
  {
  }

  /** Whatever the chooser answers, a selected member is one of the candidates and belongs to
      the resolved class, which was among the matching ids. */
  lemma SelectionStaysInClass<T(!new)>(cs: seq<Candidate<T>>, classes: Classes<T>, matching: seq<ClassId>,
                                r: Resolution<T>,
                                       chooser: (ClassId, seq<Candidate<T>>) -> Option<nat>)
    requires Partitions(ClassOfCandidate, cs, classes) && Resolves(classes, Elements(matching), r) && r.Selected?
    requires SelectWithinClass(r.id, r.members, chooser).Some?
    ensures var c := SelectWithinClass(r.id, r.members, chooser).value;
            c in cs && ClassOf(c.grant) == r.id && r.id in matching
  {
    var c := SelectWithinClass(r.id, r.members, chooser).value;
    assert c in r.members;
    assert r.id in Known(classes, Elements(matching));
    assert ClassOfCandidate(c) == r.id;
  }

  /** A class is selected only when no candidate of another class matches. */
  lemma SelectionIsUnambiguous<T(!new)>(cs: seq<Candidate<T>>, classes: Classes<T>, matching: seq<ClassId>,
                                 r: Resolution<T>, c: Candidate<T>)
    requires Partitions(ClassOfCandidate, cs, classes) && Resolves(classes, Elements(matching), r) && r.Selected?
    requires c in cs && ClassOf(c.grant) in matching
    ensures ClassOf(c.grant) == r.id && c in r.members
  {
    assert ClassOfCandidate(c) == ClassOf(c.grant);
    assert ClassOf(c.grant) in Known(classes, Elements(matching));
  }
}
