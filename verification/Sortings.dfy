/** Sorting a mapping list by start, as adding a mapping does: what any sort leaves of the permissions. */
module Sortings {
  import opened Words
  import opened Mappings

  predicate Ascending(ms: seq<Mapping>) {
    forall i, j :: 0 <= i < j < |ms| ==> ms[i].start <= ms[j].start
  }

  /** What a sort promises, stable or not: the same entries in ascending order of start. */
  ghost predicate Sorting(xs: seq<Mapping>, ys: seq<Mapping>) {
    Ascending(ys) && multiset(ys) == multiset(xs)
  }

  lemma SameMembers(xs: seq<Mapping>, ys: seq<Mapping>, m: Mapping)
    requires multiset(ys) == multiset(xs)
    ensures m in ys <==> m in xs
  {
    assert m in ys <==> m in multiset(ys);
    assert m in xs <==> m in multiset(xs);
  }

  // ---------------------------------------------------------------- a sort

  /** Puts `x` before the entries whose start is not smaller. */
  function InOrder(x: Mapping, ys: seq<Mapping>): seq<Mapping> {
    if ys == [] || x.start <= ys[0].start then [x] + ys else [ys[0]] + InOrder(x, ys[1..])
  }

  function Sort(xs: seq<Mapping>): seq<Mapping> {
    if xs == [] then [] else InOrder(xs[0], Sort(xs[1..]))
  }

  lemma {:induction false} PlaceAt(x: Mapping, ys: seq<Mapping>) returns (k: nat)
    requires Ascending(ys)
    ensures k <= |ys| && InOrder(x, ys) == Insert(ys, k, x)
    ensures forall i :: 0 <= i < k ==> ys[i].start < x.start
    ensures forall i :: k <= i < |ys| ==> x.start <= ys[i].start
  {
    if ys == [] || x.start <= ys[0].start {
      k := 0;
    } else {
      var j := PlaceAt(x, ys[1..]);
      k := j + 1;
      assert [ys[0]] + Insert(ys[1..], j, x) == Insert(ys, k, x);
    }
  }

  lemma InsertMultiset(ys: seq<Mapping>, k: nat, x: Mapping)
    requires k <= |ys|
    ensures multiset(Insert(ys, k, x)) == multiset(ys) + multiset{x}
  {
    assert ys == ys[..k] + ys[k..];
  }

  lemma InsertAscending(ys: seq<Mapping>, k: nat, x: Mapping)
    requires Ascending(ys) && k <= |ys|
    requires forall i :: 0 <= i < k ==> ys[i].start <= x.start
    requires forall i :: k <= i < |ys| ==> x.start <= ys[i].start
    ensures Ascending(Insert(ys, k, x))
  {
    forall i | 0 <= i <= |ys| ensures Insert(ys, k, x)[i] == if i < k then ys[i] else if i == k then x else ys[i - 1] {
      InsertIndex(ys, k, x, i);
    }
  }

  lemma {:induction false} SortSorts(xs: seq<Mapping>)
    ensures Sorting(xs, Sort(xs))
  {
    if xs != [] {
      SortSorts(xs[1..]);
      var k := PlaceAt(xs[0], Sort(xs[1..]));
      InsertMultiset(Sort(xs[1..]), k, xs[0]);
      InsertAscending(Sort(xs[1..]), k, xs[0]);
      assert xs == [xs[0]] + xs[1..];
    }
  }

  lemma SortStep(xs: seq<Mapping>, ys: seq<Mapping>, k: nat, x: Mapping)
    requires Sorting(xs, ys) && k <= |ys|
    requires k > 0 ==> ys[k - 1].start <= x.start
    requires forall i :: k <= i < |ys| ==> x.start <= ys[i].start
    ensures Sorting(xs + [x], Insert(ys, k, x))
  {
    InsertMultiset(ys, k, x);
    InsertAscending(ys, k, x);
  }

  /** Sorts by start.  Only that the result is a sorting is promised. */
  method SortByStart(xs: seq<Mapping>) returns (ys: seq<Mapping>)
    ensures Sorting(xs, ys)
  {
    hide Insert, Sorting;
    ys := [];
    assert Sorting([], []) by { SortSorts([]); }
    for i := 0 to |xs|
      invariant Sorting(xs[..i], ys)
    {
      var k := |ys|;
      while k > 0 && ys[k - 1].start > xs[i].start
        invariant 0 <= k <= |ys| && forall j :: k <= j < |ys| ==> xs[i].start <= ys[j].start
      {
        k := k - 1;
      }
      SortStep(xs[..i], ys, k, xs[i]);
      assert xs[..i + 1] == xs[..i] + [xs[i]];
      ys := Insert(ys, k, xs[i]);
    }
    assert xs[..|xs|] == xs;
  }

  // ---------------------------------------------------------------- tidy lists

  lemma HeadLeast(xs: seq<Mapping>, ys: seq<Mapping>)
    requires xs != [] && Sorting(xs, ys)
    ensures ys != [] && ys[0] in xs && forall x :: x in xs ==> ys[0].start <= x.start
  {
    assert xs[0] in multiset(ys);
    SameMembers(xs, ys, ys[0]);
    forall x | x in xs ensures ys[0].start <= x.start { SameMembers(xs, ys, x); }
  }

  lemma TailMultiset(ys: seq<Mapping>)
    requires ys != []
    ensures multiset(ys[1..]) == multiset(ys) - multiset{ys[0]}
  {
    assert ys == [ys[0]] + ys[1..];
  }

  /** Entries of equal start are equal. */
  ghost predicate TiesEqual(xs: seq<Mapping>) {
    forall x, y :: x in xs && y in xs && x.start == y.start ==> x == y
  }

  lemma {:induction false} SortingUnique(xs: seq<Mapping>, ys: seq<Mapping>, zs: seq<Mapping>)
    requires TiesEqual(xs) && Sorting(xs, ys) && Sorting(xs, zs)
    ensures ys == zs
    decreases |ys|
  {
    if ys == [] {
      assert |zs| == |multiset(zs)| == |multiset(ys)| == 0;
    } else {
      assert ys[0] in multiset(xs);
      HeadLeast(xs, ys);
      HeadLeast(xs, zs);
      assert ys[0] == zs[0];
      TailMultiset(ys);
      TailMultiset(zs);
      forall y | y in ys[1..] ensures y in xs { SameMembers(xs, ys, y); }
      SortingUnique(ys[1..], ys[1..], zs[1..]);
    }
  }

  lemma NoTie(ms: seq<Mapping>, m: Mapping, x: Mapping)
    requires Tidy(ms) && m.start < m.end && Free(ms, m.start, m.end) && x in ms
    ensures x.start != m.start
  {
    var i :| 0 <= i < |ms| && ms[i] == x;
    assert !ms[i].Overlaps(m.start, m.end);
  }

  lemma TidyTies(ms: seq<Mapping>, m: Mapping)
    requires Tidy(ms) && m.start < m.end && Free(ms, m.start, m.end)
    ensures Ascending(ms) && TiesEqual(ms + [m])
  {
    var xs := ms + [m];
    forall x | x in ms ensures x.start != m.start { NoTie(ms, m, x); }
    forall x, y | x in xs && y in xs && x.start == y.start ensures x == y {
      if x in ms && y in ms {
        var i :| 0 <= i < |ms| && ms[i] == x;
        var j :| 0 <= j < |ms| && ms[j] == y;
      }
    }
  }

  /** Where a new mapping belongs in a tidy list. */
  lemma Position(ms: seq<Mapping>, m: Mapping) returns (k: nat)
    requires Tidy(ms) && m.start < m.end && Free(ms, m.start, m.end)
    ensures k <= |ms|
    ensures forall i :: 0 <= i < k ==> ms[i].end <= m.start
    ensures forall i :: k <= i < |ms| ==> m.end <= ms[i].start
  {
    k := |ms|;
    while k > 0 && ms[k - 1].start > m.start
      invariant 0 <= k <= |ms| && forall i :: k <= i < |ms| ==> m.end <= ms[i].start
    {
      k := k - 1;
    }
  }

  /** In a tidy list any sort puts a new mapping over a free range in its place and moves nothing else. */
  lemma SortingInserts(ms: seq<Mapping>, m: Mapping, ys: seq<Mapping>, max: u32)
    requires Tidy(ms) && Within(ms, max) && m.start < m.end <= max && Free(ms, m.start, m.end) && Sorting(ms + [m], ys)
    ensures Inserted(ms, ys, m) && Tidy(ys) && Within(ys, max) && (Sorted(ms) ==> Sorted(ys))
  {
    TidyTies(ms, m);
    var k := Position(ms, m);
    InsertSorted(ms, k, m, max);
    InsertMultiset(ms, k, m);
    InsertAscending(ms, k, m);
    SortingUnique(ms + [m], ys, Insert(ms, k, m));
  }

  // ---------------------------------------------------------------- any list

  /** Among the mappings that have the address, this one has the lowest start. */
  ghost predicate Lowest(ms: seq<Mapping>, a: int, j: nat) {
    j < |ms| && ms[j].Has(a) && forall k :: 0 <= k < |ms| && ms[k].Has(a) ==> ms[j].start <= ms[k].start
  }

  /** Every address already has the permission of each mapping of lowest start there. */
  ghost predicate LowestFirst(ms: seq<Mapping>) {
    forall a, j: nat :: Lowest(ms, a, j) ==> At(ms, a) == Some(Perm(ms[j].prot, ms[j].name))
  }

  /** Exactly the new mapping's addresses change. */
  ghost predicate AddsOnly(ms: seq<Mapping>, ys: seq<Mapping>, m: Mapping) {
    forall a :: At(ys, a) == if m.Has(a) then Some(Perm(m.prot, m.name)) else At(ms, a)
  }

  ghost predicate AlwaysAddsOnly(ms: seq<Mapping>, m: Mapping) {
    forall ys :: Sorting(ms + [m], ys) ==> AddsOnly(ms, ys, m)
  }

  lemma FirstIndex(ys: seq<Mapping>, a: int) returns (i: nat)
    requires At(ys, a).Some?
    ensures i < |ys| && ys[i].Has(a) && At(ys, a) == Some(Perm(ys[i].prot, ys[i].name)) && forall k :: 0 <= k < i ==>
            !ys[k].Has(a)
  {
    AtNone(ys, a);
    i := 0;
    while !ys[i].Has(a)
      invariant i < |ys| && forall k :: 0 <= k < i ==> !ys[k].Has(a)
      decreases |ys| - i
    {
      i := i + 1;
    }
    AtIndex(ys, a, i);
  }

  /** In a sorted list the first mapping that has an address has the lowest start there. */
  lemma FirstIsLowest(ys: seq<Mapping>, a: int, i: nat)
    requires Ascending(ys) && i < |ys| && ys[i].Has(a) && forall k :: 0 <= k < i ==> !ys[k].Has(a)
    ensures Lowest(ys, a, i)
  {
  }

  lemma SortedAt(ms: seq<Mapping>, m: Mapping, ys: seq<Mapping>, a: int)
    requires LowestFirst(ms) && Sorting(ms + [m], ys) && Free(ms, m.start, m.end)
    ensures At(ys, a) == if m.Has(a) then Some(Perm(m.prot, m.name)) else At(ms, a)
  {
    var xs := ms + [m];
    AtNone(ms, a);
    AtNone(ys, a);
    if At(ys, a).Some? {
      var i := FirstIndex(ys, a);
      FirstIsLowest(ys, a, i);
      SameMembers(xs, ys, ys[i]);
      if ys[i] == m {
        assert m.Has(a);
      } else {
        var j :| 0 <= j < |ms| && ms[j] == ys[i];
        assert !ms[j].Overlaps(m.start, m.end);
        forall k | 0 <= k < |ms| && ms[k].Has(a) ensures ms[j].start <= ms[k].start {
          assert xs[k] == ms[k];
          SameMembers(xs, ys, ms[k]);
          var l :| 0 <= l < |ys| && ys[l] == ms[k];
        }
        assert Lowest(ms, a, j);
      }
    } else {
      forall k | 0 <= k < |xs| ensures !xs[k].Has(a) {
        SameMembers(xs, ys, xs[k]);
        var l :| 0 <= l < |ys| && ys[l] == xs[k];
      }
      assert xs[|ms|] == m;
      forall k | 0 <= k < |ms| ensures !ms[k].Has(a) { assert xs[k] == ms[k]; }
    }
  }

  /** A sort that puts a given mapping before all others of its start. */
  lemma SortWithFirst(ms: seq<Mapping>, m: Mapping, j: nat, a: int) returns (ys: seq<Mapping>)
    requires Lowest(ms, a, j) && !m.Has(a)
    ensures Sorting(ms + [m], ys) && At(ys, a) == Some(Perm(ms[j].prot, ms[j].name))
  {
    var rest := ms[..j] + ms[j + 1..] + [m];
    SortSorts(rest);
    var zs := Sort(rest);
    var k := PlaceAt(ms[j], zs);
    ys := Insert(zs, k, ms[j]);
    InsertMultiset(zs, k, ms[j]);
    InsertAscending(zs, k, ms[j]);
    assert ms == ms[..j] + [ms[j]] + ms[j + 1..];
    assert multiset(ms + [m]) == multiset(rest) + multiset{ms[j]};
    forall i | 0 <= i < k ensures !ys[i].Has(a) {
      InsertIndex(zs, k, ms[j], i);
      SameMembers(rest, zs, zs[i]);
      assert zs[i] in rest && zs[i].start < ms[j].start;
      InRest(ms, m, j, zs[i]);
    }
    InsertIndex(zs, k, ms[j], k);
    AtIndex(ys, a, k);
  }

  lemma InRest(ms: seq<Mapping>, m: Mapping, j: nat, x: Mapping)
    requires j < |ms| && x in ms[..j] + ms[j + 1..] + [m]
    ensures x == m || exists k :: 0 <= k < |ms| && ms[k] == x
  {
  }

  /** On any list, adding a mapping over a free range leaves every other address alone, however the sort
      breaks ties, if and only if every address already has the permission of the mappings of lowest start
      there. */
  lemma AddsOnlyIff(ms: seq<Mapping>, m: Mapping)
    requires m.start < m.end && Free(ms, m.start, m.end)
    ensures AlwaysAddsOnly(ms, m) <==> LowestFirst(ms)
  {
    if LowestFirst(ms) {
      forall ys | Sorting(ms + [m], ys) ensures AddsOnly(ms, ys, m) {
        forall a ensures At(ys, a) == if m.Has(a) then Some(Perm(m.prot, m.name)) else At(ms, a) {
          SortedAt(ms, m, ys, a);
        }
      }
    } else {
      var a, j: nat :| Lowest(ms, a, j) && At(ms, a) != Some(Perm(ms[j].prot, ms[j].name));
      assert !ms[j].Overlaps(m.start, m.end);
      var ys := SortWithFirst(ms, m, j, a);
      assert !AddsOnly(ms, ys, m);
    }
  }

  /** A list in order, even with repeated entries, is one. */
  lemma TidyLowestFirst(ms: seq<Mapping>)
    requires Tidy(ms)
    ensures LowestFirst(ms)
  {
    forall a, j: nat | Lowest(ms, a, j) ensures At(ms, a) == Some(Perm(ms[j].prot, ms[j].name)) { AtMember(ms, a, j); }
  }

  /** The failing case: after a page of a repeated mapping was protected, adding any mapping elsewhere undoes
      the change. */
  lemma AddUndoes(m: Mapping, ys: seq<Mapping>)
    requires m.start < m.end && Free(Protected(RepeatedList(), 0x4000, 0x5000, 1), m.start, m.end)
    requires Sorting(Protected(RepeatedList(), 0x4000, 0x5000, 1) + [m], ys)
    ensures At(Protected(RepeatedList(), 0x4000, 0x5000, 1), 0x4000) == Some(Perm(1, "a"))
    ensures At(ys, 0x4000) == Some(Perm(3, "a"))
  {
    hide Protected, RepeatedList, Covering;
    var once := ProtectedOnce();
    AtIndex(once, 0x4000, 2);
    assert Lowest(once, 0x4000, 4) && !once[4].Overlaps(m.start, m.end);
    LowestWins(once, m, ys, 0x4000, 4);
  }

  /** The one mapping of lowest start at an address decides there after any sort. */
  lemma LowestWins(ms: seq<Mapping>, m: Mapping, ys: seq<Mapping>, a: int, j: nat)
    requires Sorting(ms + [m], ys) && !m.Has(a) && Lowest(ms, a, j)
    requires forall i :: 0 <= i < |ms| && ms[i].Has(a) && ms[i].start == ms[j].start ==> ms[i] == ms[j]
    ensures At(ys, a) == Some(Perm(ms[j].prot, ms[j].name))
  {
    var xs := ms + [m];
    assert xs[j] == ms[j];
    SameMembers(xs, ys, ms[j]);
    var l :| 0 <= l < |ys| && ys[l] == ms[j];
    AtNone(ys, a);
    var i := FirstIndex(ys, a);
    FirstIsLowest(ys, a, i);
    SameMembers(xs, ys, ys[i]);
    var k :| 0 <= k < |xs| && xs[k] == ys[i];
    assert k < |ms| && ms[k] == xs[k];
  }

  lemma ProtectedOnce() returns (once: seq<Mapping>)
    ensures once == Protected(RepeatedList(), 0x4000, 0x5000, 1) && |once| == 5
    ensures once[0] == Mapping(0x1000, 0x2000, 3, "a") && once[1] == Mapping(0x3000, 0x4000, 3, "a")
    ensures once[2] == Mapping(0x4000, 0x5000, 1, "a") && once[3] == Mapping(0x5000, 0x6000, 3, "a")
    ensures once[4] == Mapping(0x3000, 0x6000, 3, "a")
  {
    var ms, m := RepeatedList(), Mapping(0x3000, 0x6000, 3, "a");
    CoveringAt(ms, 0x4000, 0x5000, 1);
    assert ProtectParts(m, 0x4000, 0x5000, 1)
           == [m.(end := 0x4000), Mapping(0x4000, 0x5000, 1, "a"), m.(start := 0x5000)];
    once := [ms[0], m.(end := 0x4000), Mapping(0x4000, 0x5000, 1, "a"), m.(start := 0x5000), m];
    assert once == Protected(ms, 0x4000, 0x5000, 1);
  }

  // ---------------------------------------------------------------- adding and taking out again

  lemma WithoutAscending(ys: seq<Mapping>, k: nat)
    requires Ascending(ys) && k < |ys|
    ensures Ascending(ys[..k] + ys[k + 1..])
  {
    var zs := ys[..k] + ys[k + 1..];
    forall i, j | 0 <= i < j < |zs| ensures zs[i].start <= zs[j].start {
      assert zs[i] == ys[if i < k then i else i + 1] && zs[j] == ys[if j < k then j else j + 1];
    }
  }

  /** A sort with one more entry is a sort without it, and that entry somewhere. */
  lemma TakeOut(ms: seq<Mapping>, m: Mapping, ys: seq<Mapping>) returns (zs: seq<Mapping>, k: nat)
    requires Sorting(ms + [m], ys)
    ensures k <= |zs| && ys == Insert(zs, k, m) && Sorting(ms, zs)
  {
    assert (ms + [m])[|ms|] == m;
    SameMembers(ms + [m], ys, m);
    k :| 0 <= k < |ys| && ys[k] == m;
    zs := ys[..k] + ys[k + 1..];
    WithoutAscending(ys, k);
    hide Ascending;
    assert ys == Insert(zs, k, m);
    InsertMultiset(zs, k, m);
    assert multiset(ms + [m]) == multiset(ms) + multiset{m};
    CancelOne(multiset(zs), multiset(ms), m);
  }

  lemma CancelOne(x: multiset<Mapping>, y: multiset<Mapping>, m: Mapping)
    requires x + multiset{m} == y + multiset{m}
    ensures x == y
  {
    assert x == (x + multiset{m}) - multiset{m} == y;
  }

  lemma SortFree(ms: seq<Mapping>, zs: seq<Mapping>, s: int, e: int)
    requires Sorting(ms, zs) && Free(ms, s, e)
    ensures Free(zs, s, e)
  {
    forall i | 0 <= i < |zs| ensures !zs[i].Overlaps(s, e) { SameMembers(ms, zs, zs[i]); }
  }

  /** What adding a mapping over a free range and removing it again can leave are exactly the sorts of the
      list: the entries are the same, but their order may not be. */
  lemma UndoneIsSort(ms: seq<Mapping>, m: Mapping, zs: seq<Mapping>)
    requires m.start < m.end && Free(ms, m.start, m.end)
    ensures (exists ys :: Sorting(ms + [m], ys) && Removed(ys, m.start, m.end) == zs) <==> Sorting(ms, zs)
  {
    hide Removed, Sorting, Free;
    forall ys | Sorting(ms + [m], ys) && Removed(ys, m.start, m.end) == zs ensures Sorting(ms, zs) {
      UndoSorts(ms, m, ys);
    }
    if Sorting(ms, zs) { var ys := SortThrough(ms, m, zs); }
  }

  lemma UndoSorts(ms: seq<Mapping>, m: Mapping, ys: seq<Mapping>)
    requires m.start < m.end && Free(ms, m.start, m.end) && Sorting(ms + [m], ys)
    ensures Sorting(ms, Removed(ys, m.start, m.end))
  {
    hide Removed, Sorting, Free;
    var zs, k := TakeOut(ms, m, ys);
    SortFree(ms, zs, m.start, m.end);
    InsertRemove(zs, k, m);
  }

  lemma SortThrough(ms: seq<Mapping>, m: Mapping, zs: seq<Mapping>) returns (ys: seq<Mapping>)
    requires m.start < m.end && Free(ms, m.start, m.end) && Sorting(ms, zs)
    ensures Sorting(ms + [m], ys) && Removed(ys, m.start, m.end) == zs
  {
    hide Removed, Free;
    var k := PlaceAt(m, zs);
    ys := Insert(zs, k, m);
    InsertMultiset(zs, k, m);
    InsertAscending(zs, k, m);
    SortFree(ms, zs, m.start, m.end);
    InsertRemove(zs, k, m);
  }

  lemma SortingTrans(xs: seq<Mapping>, ys: seq<Mapping>, zs: seq<Mapping>)
    requires Sorting(xs, ys) && Sorting(ys, zs)
    ensures Sorting(xs, zs)
  {
  }

  lemma SortedTidy(ms: seq<Mapping>)
    requires Sorted(ms)
    ensures Tidy(ms)
  {
  }

  /** A tidy list is its own only sort. */
  lemma TidySort(ms: seq<Mapping>, zs: seq<Mapping>)
    requires Tidy(ms) && Sorting(ms, zs)
    ensures zs == ms
  {
    forall x, y | x in ms && y in ms && x.start == y.start ensures x == y {
      var i :| 0 <= i < |ms| && ms[i] == x;
      var j :| 0 <= j < |ms| && ms[j] == y;
    }
    SortingUnique(ms, zs, ms);
  }

  ghost predicate SamePermissions(ms: seq<Mapping>, zs: seq<Mapping>) {
    forall a :: At(zs, a) == At(ms, a)
  }

  /** The list after a call that fails: as it was or, when the call had added a mapping before it failed,
      sorted. */
  ghost predicate FailedList(ms: seq<Mapping>, added: bool, zs: seq<Mapping>) {
    if added then Sorting(ms, zs) else zs == ms
  }

  /** An entry that has no address takes part in a sort without showing. */
  const NOWHERE := Mapping(0, 0, 0, "")

  /** A sort of a list, seen as a sort that also places an entry without addresses. */
  lemma WithNowhere(ms: seq<Mapping>, zs: seq<Mapping>, a: int) returns (ys: seq<Mapping>)
    requires Sorting(ms, zs)
    ensures Sorting(ms + [NOWHERE], ys) && At(ys, a) == At(zs, a)
  {
    var k := PlaceAt(NOWHERE, zs);
    ys := Insert(zs, k, NOWHERE);
    InsertMultiset(zs, k, NOWHERE);
    InsertAscending(zs, k, NOWHERE);
    InsertAt(zs, k, NOWHERE, a);
  }

  lemma ResortedAt(ms: seq<Mapping>, zs: seq<Mapping>, a: int)
    requires LowestFirst(ms) && Sorting(ms, zs)
    ensures At(zs, a) == At(ms, a)
  {
    hide LowestFirst, Sorting, At;
    var ys := WithNowhere(ms, zs, a);
    SortedAt(ms, NOWHERE, ys, a);
  }

  lemma ResortWithFirst(ms: seq<Mapping>, j: nat, a: int) returns (zs: seq<Mapping>)
    requires Lowest(ms, a, j)
    ensures Sorting(ms, zs) && At(zs, a) == Some(Perm(ms[j].prot, ms[j].name))
  {
    hide Sorting, At;
    var ys := SortWithFirst(ms, NOWHERE, j, a);
    var k;
    zs, k := TakeOut(ms, NOWHERE, ys);
    InsertAt(zs, k, NOWHERE, a);
  }

  /** Every address keeps its permission when a call fails, however the sort breaks ties, if and only if the
      call had not added a mapping or every address already has the permission of the mappings of lowest
      start there. */
  lemma FailureKeepsPermissionsIff(ms: seq<Mapping>, added: bool)
    ensures (forall zs :: FailedList(ms, added, zs) ==> SamePermissions(ms, zs)) <==> !added || LowestFirst(ms)
  {
    if added && LowestFirst(ms) {
      forall zs | Sorting(ms, zs) ensures SamePermissions(ms, zs) {
        forall a ensures At(zs, a) == At(ms, a) { ResortedAt(ms, zs, a); }
      }
    }
    if added && !LowestFirst(ms) {
      var a, j: nat :| Lowest(ms, a, j) && At(ms, a) != Some(Perm(ms[j].prot, ms[j].name));
      var zs := ResortWithFirst(ms, j, a);
      assert FailedList(ms, added, zs) && !SamePermissions(ms, zs);
    }
  }

  /** The failing case: after a page of a repeated mapping was protected, any such sort undoes the change. */
  lemma ResortUndoes(zs: seq<Mapping>)
    requires Sorting(Protected(RepeatedList(), 0x4000, 0x5000, 1), zs)
    ensures At(Protected(RepeatedList(), 0x4000, 0x5000, 1), 0x4000) == Some(Perm(1, "a"))
    ensures At(zs, 0x4000) == Some(Perm(3, "a"))
  {
    hide Protected, RepeatedList, Sorting;
    var once := ProtectedOnce();
    AtIndex(once, 0x4000, 2);
    assert Lowest(once, 0x4000, 4);
    var ys := WithNowhere(once, zs, 0x4000);
    LowestWins(once, NOWHERE, ys, 0x4000, 4);
  }

  // ---------------------------------------------------------------- checking a range

  /** The first mapping that has an address. */
  function FirstAt(ms: seq<Mapping>, a: int): (m: Option<Mapping>)
    ensures m.Some? ==> m.value in ms && m.value.Has(a) && At(ms, a) == Some(Perm(m.value.prot, m.value.name))
    ensures m.None? ==> At(ms, a).None?
  {
    if ms == [] then None else if ms[0].Has(a) then Some(ms[0]) else FirstAt(ms[1..], a)
  }

  lemma {:induction false} FirstAtIndex(ms: seq<Mapping>, a: int, k: nat)
    requires k <= |ms| && (k < |ms| ==> ms[k].Has(a)) && forall i :: 0 <= i < k ==> !ms[i].Has(a)
    ensures FirstAt(ms, a) == if k < |ms| then Some(ms[k]) else None
  {
    if k > 0 { FirstAtIndex(ms[1..], a, k - 1); }
  }

  /** The walk of a permission check: from the end of each first mapping to the next. */
  function Walk(ms: seq<Mapping>, c: int, e: int, need: bv8): bool
    decreases e - c
  {
    if c >= e then true
    else
      var m := FirstAt(ms, c);
      m.Some? && Grants(m.value.prot, need) && Walk(ms, if m.value.end < e then m.value.end else e, e, need)
  }

  /** In ascending order, the first mapping at an address is the first up to its end. */
  lemma FirstUpTo(ms: seq<Mapping>, c: int, a: int)
    requires Ascending(ms) && FirstAt(ms, c).Some? && c <= a < FirstAt(ms, c).value.end
    ensures FirstAt(ms, a) == FirstAt(ms, c)
  {
    AtNone(ms, c);
    var i := FirstIndex(ms, c);
    FirstAtIndex(ms, c, i);
    forall k | 0 <= k < i ensures !ms[k].Has(a) { assert ms[k].start <= ms[i].start; }
    FirstAtIndex(ms, a, i);
  }

  /** On a list in ascending order of start the walk succeeds exactly when every byte is mapped with all
      requested permissions. */
  lemma {:induction false} WalkAllows(ms: seq<Mapping>, c: int, e: int, need: bv8)
    requires Ascending(ms)
    ensures Walk(ms, c, e, need) <==> Allows(ms, c, e, need)
    decreases e - c
  {
    if c < e {
      var m := FirstAt(ms, c);
      if m.Some? {
        var next := if m.value.end < e then m.value.end else e;
        forall a | c <= a < next ensures At(ms, a) == Some(Perm(m.value.prot, m.value.name)) { FirstUpTo(ms, c, a); }
        WalkAllows(ms, next, e, need);
      }
    }
  }

  /** Right after a mapping was added over a free range, the walk inside it meets no other. */
  lemma NewWalk(ms: seq<Mapping>, m: Mapping, ys: seq<Mapping>, c: int, e: int, need: bv8)
    requires Sorting(ms + [m], ys) && Free(ms, m.start, m.end) && m.start <= c < e <= m.end
    ensures Walk(ys, c, e, need) <==> Grants(m.prot, need)
  {
    var xs := ms + [m];
    assert xs[|ms|] == m;
    SameMembers(xs, ys, m);
    AtNone(ys, c);
    var x := FirstAt(ys, c).value;
    SameMembers(xs, ys, x);
    var k :| 0 <= k < |xs| && xs[k] == x;
  }
}
