/** The mapping list of a guest address space, as a value: what a list means (a map from
    addresses to permissions), and what the list operations do to that meaning. */
module Mappings {
  import opened Words

  datatype Mapping = Mapping(start: u32, end: u32, prot: bv8, name: string) {
    predicate Has(a: int) { start <= a < end }

    predicate Overlaps(s: int, e: int) { s < end && e > start }

    predicate Covers(s: int, e: int) { start <= s && e <= end }

    /** The range lies strictly inside the mapping, so removing it leaves two pieces. */
    predicate Splits(s: int, e: int) { start < s && e < end }
  }

  datatype Perm = Perm(prot: bv8, name: string)

  /** Non-empty, disjoint and in ascending order. */
  ghost predicate Sorted(ms: seq<Mapping>) {
    && (forall i :: 0 <= i < |ms| ==> ms[i].start < ms[i].end)
    && (forall i, j :: 0 <= i < j < |ms| ==> ms[i].end <= ms[j].start)
  }

  /** Sorted up to repeated entries: all that removal guarantees when it splits a mapping that has
      a successor. */
  ghost predicate Tidy(ms: seq<Mapping>) {
    && (forall i :: 0 <= i < |ms| ==> ms[i].start < ms[i].end)
    && (forall i, j :: 0 <= i < j < |ms| ==> ms[i].end <= ms[j].start || ms[i] == ms[j])
  }

  ghost predicate Within(ms: seq<Mapping>, max: u32) {
    forall i :: 0 <= i < |ms| ==> ms[i].end <= max
  }

  predicate Free(ms: seq<Mapping>, s: int, e: int) {
    forall i :: 0 <= i < |ms| ==> !ms[i].Overlaps(s, e)
  }

  /** The address-to-permission map that a list stands for: the first mapping wins. */
  function At(ms: seq<Mapping>, a: int): Option<Perm> {
    if ms == [] then None
    else if ms[0].Has(a) then Some(Perm(ms[0].prot, ms[0].name))
    else At(ms[1..], a)
  }

  function WithProt(p: Option<Perm>, prot: bv8): Option<Perm> {
    if p.Some? then Some(p.value.(prot := prot)) else None
  }

  predicate Grants(prot: bv8, need: bv8) { prot & need == need }

  /** Every byte of [s, e) is mapped with all the bits of `need`. */
  ghost predicate Allows(ms: seq<Mapping>, s: int, e: int, need: bv8) {
    forall a :: s <= a < e ==> At(ms, a).Some? && Grants(At(ms, a).value.prot, need)
  }

  lemma {:induction false} AtIndex(ms: seq<Mapping>, a: int, k: nat)
    requires k < |ms| && ms[k].Has(a)
    requires forall i :: 0 <= i < k ==> !ms[i].Has(a)
    ensures At(ms, a) == Some(Perm(ms[k].prot, ms[k].name))
  {
    if k > 0 { AtIndex(ms[1..], a, k - 1); }
  }

  /** In a tidy list every mapping that has an address gives its permissions. */
  lemma {:induction false} AtMember(ms: seq<Mapping>, a: int, k: nat)
    requires Tidy(ms) && k < |ms| && ms[k].Has(a)
    ensures At(ms, a) == Some(Perm(ms[k].prot, ms[k].name))
  {
    if k > 0 && !ms[0].Has(a) { AtMember(ms[1..], a, k - 1); }
  }

  lemma {:induction false} AtNone(ms: seq<Mapping>, a: int)
    ensures At(ms, a).None? <==> forall i :: 0 <= i < |ms| ==> !ms[i].Has(a)
  {
    if ms != [] {
      AtNone(ms[1..], a);
      forall i | 0 <= i < |ms| && At(ms, a).None? ensures !ms[i].Has(a) {
        if i > 0 { assert ms[1..][i - 1] == ms[i]; }
      }
      if forall i :: 0 <= i < |ms| ==> !ms[i].Has(a) {
        assert forall i :: 0 <= i < |ms[1..]| ==> ms[1..][i] == ms[i + 1];
      }
    }
  }

  lemma {:induction false} AtConcat(xs: seq<Mapping>, ys: seq<Mapping>, a: int)
    ensures At(xs + ys, a) == if At(xs, a).Some? then At(xs, a) else At(ys, a)
  {
    if xs == [] {
      assert xs + ys == ys;
    } else {
      assert (xs + ys)[1..] == xs[1..] + ys;
      AtConcat(xs[1..], ys, a);
    }
  }

  lemma FreeAt(ms: seq<Mapping>, s: int, e: int, a: int)
    requires Free(ms, s, e) && s <= a < e
    ensures At(ms, a).None?
  {
    AtNone(ms, a);
  }

  /** With no empty mapping in the list, a range is free exactly when none of its addresses is mapped. */
  lemma FreeIff(ms: seq<Mapping>, s: int, e: int)
    requires s < e && forall i :: 0 <= i < |ms| ==> ms[i].start < ms[i].end
    ensures Free(ms, s, e) <==> forall a :: s <= a < e ==> At(ms, a).None?
  {
    if Free(ms, s, e) {
      forall a | s <= a < e ensures At(ms, a).None? { FreeAt(ms, s, e, a); }
    } else {
      var i :| 0 <= i < |ms| && ms[i].Overlaps(s, e);
      var a: int := if s < ms[i].start then ms[i].start else s;
      assert ms[i].Has(a) && s <= a < e;
      AtNone(ms, a);
    }
  }

  /** Replacing one entry by sorted pieces of itself keeps the list sorted. */
  lemma ReplaceSorted(ms: seq<Mapping>, i: nat, parts: seq<Mapping>, max: u32)
    requires Sorted(ms) && Within(ms, max) && i < |ms| && Sorted(parts)
    requires forall k :: 0 <= k < |parts| ==> ms[i].start <= parts[k].start && parts[k].end <= ms[i].end
    ensures Sorted(ms[..i] + parts + ms[i + 1..]) && Within(ms[..i] + parts + ms[i + 1..], max)
  {
    var r := ms[..i] + parts + ms[i + 1..];
    forall k | 0 <= k < |r|
      ensures r[k] == if k < i then ms[k] else if k < i + |parts| then parts[k - i] else ms[k - |parts| + 1]
    {
    }
  }

  // ---------------------------------------------------------------- insertion

  /** `ms` with `m` put at position `k`. */
  function Insert(ms: seq<Mapping>, k: nat, m: Mapping): seq<Mapping>
    requires k <= |ms|
  {
    ms[..k] + [m] + ms[k..]
  }

  /** `after` is `before` with `m` added somewhere. */
  ghost predicate Inserted(before: seq<Mapping>, after: seq<Mapping>, m: Mapping) {
    exists k {:trigger Insert(before, k, m)} :: 0 <= k <= |before| && after == Insert(before, k, m)
  }

  lemma InsertIndex(ms: seq<Mapping>, k: nat, m: Mapping, i: nat)
    requires k <= |ms| && i <= |ms|
    ensures Insert(ms, k, m)[i] == if i < k then ms[i] else if i == k then m else ms[i - 1]
  {
  }

  /** An entry put before the larger starts and after the smaller ones keeps the list sorted. */
  lemma InsertSorted(ms: seq<Mapping>, k: nat, m: Mapping, max: u32)
    requires Tidy(ms) && Within(ms, max) && k <= |ms| && m.start < m.end <= max
    requires forall j :: 0 <= j < k ==> ms[j].end <= m.start
    requires forall j :: k <= j < |ms| ==> m.end <= ms[j].start
    ensures Tidy(Insert(ms, k, m)) && Within(Insert(ms, k, m), max)
    ensures Sorted(ms) ==> Sorted(Insert(ms, k, m))
  {
    var r := Insert(ms, k, m);
    forall i | 0 <= i < |r| ensures r[i].start < r[i].end <= max { InsertIndex(ms, k, m, i); }
    forall i, j | 0 <= i < j < |r|
      ensures r[i].end <= r[j].start || r[i] == r[j]
      ensures Sorted(ms) ==> r[i].end <= r[j].start
    {
      InsertIndex(ms, k, m, i);
      InsertIndex(ms, k, m, j);
    }
  }

  /** Adding a mapping over a free range maps exactly that range, at whatever position it lands. */
  lemma InsertAt(ms: seq<Mapping>, k: nat, m: Mapping, a: int)
    requires k <= |ms| && Free(ms, m.start, m.end)
    ensures At(Insert(ms, k, m), a) == if m.Has(a) then Some(Perm(m.prot, m.name)) else At(ms, a)
  {
    assert ms == ms[..k] + ms[k..];
    AtConcat(ms[..k], ms[k..], a);
    AtConcat(ms[..k] + [m], ms[k..], a);
    AtConcat(ms[..k], [m], a);
    if m.Has(a) { FreeAt(ms, m.start, m.end, a); }
  }

  lemma InsertedAt(ms: seq<Mapping>, ms': seq<Mapping>, m: Mapping)
    requires Free(ms, m.start, m.end) && Inserted(ms, ms', m)
    ensures forall a :: At(ms', a) == if m.Has(a) then Some(Perm(m.prot, m.name)) else At(ms, a)
  {
    var k :| 0 <= k <= |ms| && ms' == Insert(ms, k, m);
    forall a ensures At(ms', a) == if m.Has(a) then Some(Perm(m.prot, m.name)) else At(ms, a) {
      InsertAt(ms, k, m, a);
    }
  }

  lemma MappedNotFree(ms: seq<Mapping>, s: int, e: int, a: int)
    requires Free(ms, s, e) && At(ms, a).Some?
    ensures a < s || e <= a
  {
    AtNone(ms, a);
  }

  // ---------------------------------------------------------------- removal

  /** What is left of one mapping when [s, e) is taken away. */
  function Cut(m: Mapping, s: u32, e: u32): seq<Mapping> {
    if e <= m.start || s >= m.end then [m]
    else (if s > m.start then [m.(end := s)] else []) + (if e < m.end then [m.(start := e)] else [])
  }

  /** Interval subtraction, entry by entry: what removal is meant to compute. */
  function Subtract(ms: seq<Mapping>, s: u32, e: u32): seq<Mapping> {
    if ms == [] then [] else Cut(ms[0], s, e) + Subtract(ms[1..], s, e)
  }

  /** What the code computes.  The kept entries `out` are appended to the very array that is
      being read, so entry `i` is read back from `out` once `out` has grown past it. */
  function InPlace(ms: seq<Mapping>, i: nat, out: seq<Mapping>, s: u32, e: u32): seq<Mapping>
    decreases |ms| - i
  {
    if i >= |ms| then out
    else InPlace(ms, i + 1, out + Cut(if i < |out| then out[i] else ms[i], s, e), s, e)
  }

  function Removed(ms: seq<Mapping>, s: u32, e: u32): seq<Mapping> { InPlace(ms, 0, [], s, e) }

  /** The range splits no mapping other than the last one. */
  predicate Safe(ms: seq<Mapping>, s: u32, e: u32) {
    forall i :: 0 <= i < |ms| - 1 ==> !ms[i].Splits(s, e)
  }

  function Repeat(m: Mapping, n: nat): seq<Mapping> { seq(n, _ => m) }

  lemma CutAt(m: Mapping, s: u32, e: u32, a: int)
    requires s < e
    ensures At(Cut(m, s, e), a) == if s <= a < e then None else At([m], a)
  {
    AtConcat(if s > m.start then [m.(end := s)] else [], if e < m.end then [m.(start := e)] else [], a);
  }

  /** Whatever the list, the in-place loop leaves nothing in the removed range. */
  lemma {:induction false} InPlaceFree(ms: seq<Mapping>, i: nat, out: seq<Mapping>, s: u32, e: u32)
    requires s < e && Free(out, s, e)
    ensures Free(InPlace(ms, i, out, s, e), s, e)
    decreases |ms| - i
  {
    if i < |ms| {
      InPlaceFree(ms, i + 1, out + Cut(if i < |out| then out[i] else ms[i], s, e), s, e);
    }
  }

  lemma RemovedFree(ms: seq<Mapping>, s: u32, e: u32)
    requires s < e
    ensures Free(Removed(ms, s, e), s, e)
  {
    InPlaceFree(ms, 0, [], s, e);
  }

  lemma {:induction false} SubtractConcat(xs: seq<Mapping>, ys: seq<Mapping>, s: u32, e: u32)
    ensures Subtract(xs + ys, s, e) == Subtract(xs, s, e) + Subtract(ys, s, e)
  {
    if xs == [] {
      assert xs + ys == ys;
    } else {
      assert (xs + ys)[1..] == xs[1..] + ys;
      SubtractConcat(xs[1..], ys, s, e);
    }
  }

  /** Subtraction unmaps exactly [s, e), whatever the list. */
  lemma {:induction false} SubtractAt(ms: seq<Mapping>, s: u32, e: u32, a: int)
    requires s < e
    ensures At(Subtract(ms, s, e), a) == if s <= a < e then None else At(ms, a)
  {
    if ms != [] {
      CutAt(ms[0], s, e, a);
      SubtractAt(ms[1..], s, e, a);
      AtConcat(Cut(ms[0], s, e), Subtract(ms[1..], s, e), a);
    }
  }

  lemma {:induction false} SubtractFree(ms: seq<Mapping>, s: u32, e: u32)
    requires s < e && Free(ms, s, e)
    ensures Subtract(ms, s, e) == ms
  {
    if ms != [] { SubtractFree(ms[1..], s, e); }
  }

  lemma SortedTail(ms: seq<Mapping>)
    requires ms != [] && Sorted(ms)
    ensures Sorted(ms[1..]) && ms[0].start < ms[0].end && forall y :: y in ms[1..] ==> ms[0].end <= y.start
  {
  }

  lemma SortedJoin(xs: seq<Mapping>, ys: seq<Mapping>)
    requires Sorted(xs) && Sorted(ys) && forall x, y :: x in xs && y in ys ==> x.end <= y.start
    ensures Sorted(xs + ys)
  {
    var r := xs + ys;
    forall i | 0 <= i < |r| ensures r[i] in if i < |xs| then xs else ys {}
  }

  lemma CutSorted(m: Mapping, s: u32, e: u32)
    requires s < e && m.start < m.end
    ensures Sorted(Cut(m, s, e)) && forall x :: x in Cut(m, s, e) ==> m.start <= x.start && x.end <= m.end
  {
  }

  /** Subtraction keeps a list sorted, and leaves parts of its mappings. */
  lemma {:induction false} SubtractSorted(ms: seq<Mapping>, s: u32, e: u32)
    requires s < e && Sorted(ms)
    ensures Sorted(Subtract(ms, s, e))
    ensures forall x :: x in Subtract(ms, s, e) ==> exists y :: y in ms && y.start <= x.start && x.end <= y.end
  {
    if ms != [] {
      hide Sorted, Cut;
      SortedTail(ms);
      SubtractSorted(ms[1..], s, e);
      CutSorted(ms[0], s, e);
      var c, t := Cut(ms[0], s, e), Subtract(ms[1..], s, e);
      SortedJoin(c, t);
      assert ms[0] in ms;
    } else {
      assert Subtract(ms, s, e) == ms;
    }
  }

  lemma SafeAt(ms: seq<Mapping>, s: u32, e: u32, i: nat)
    requires Safe(ms, s, e) && i < |ms| - 1
    ensures !ms[i].Splits(s, e)
  {
  }

  /** As long as no entry before the last is split, the array is never overwritten ahead of the read. */
  lemma {:induction false} InPlaceSafe(ms: seq<Mapping>, i: nat, out: seq<Mapping>, s: u32, e: u32)
    requires i <= |ms| && |out| <= i && Safe(ms, s, e)
    ensures InPlace(ms, i, out, s, e) == out + Subtract(ms[i..], s, e)
    decreases |ms| - i
  {
    hide Cut, Subtract, Safe;
    if i < |ms| {
      var c, rest := Cut(ms[i], s, e), Subtract(ms[i + 1..], s, e);
      SubtractHead(ms, i, s, e);
      assert InPlace(ms, i, out, s, e) == InPlace(ms, i + 1, out + c, s, e);
      if i + 1 < |ms| {
        SafeAt(ms, s, e, i);
        CutShort(ms[i], s, e);
        InPlaceSafe(ms, i + 1, out + c, s, e);
      } else {
        SubtractNone(ms[i + 1..], s, e);
      }
      assert out + c + rest == out + (c + rest);
    } else {
      SubtractNone(ms[i..], s, e);
    }
  }

  lemma CutShort(m: Mapping, s: u32, e: u32)
    requires !m.Splits(s, e)
    ensures |Cut(m, s, e)| <= 1
  {
  }

  lemma SubtractNone(ms: seq<Mapping>, s: u32, e: u32)
    requires ms == []
    ensures Subtract(ms, s, e) == []
  {
  }

  lemma SubtractHead(ms: seq<Mapping>, i: nat, s: u32, e: u32)
    requires i < |ms|
    ensures Subtract(ms[i..], s, e) == Cut(ms[i], s, e) + Subtract(ms[i + 1..], s, e)
  {
    assert ms[i..][1..] == ms[i + 1..];
  }

  /** Once an entry has been split with entries left to read, its right part is all that is ever read. */
  lemma {:induction false} InPlaceAfterSplit(ms: seq<Mapping>, i: nat, out: seq<Mapping>, s: u32, e: u32)
    requires i <= |ms| && |out| == i + 1 && e <= out[i].start
    ensures InPlace(ms, i, out, s, e) == out + Repeat(out[i], |ms| - i)
    decreases |ms| - i
  {
    if i < |ms| {
      InPlaceAfterSplit(ms, i + 1, out + [out[i]], s, e);
      assert [out[i]] + Repeat(out[i], |ms| - i - 1) == Repeat(out[i], |ms| - i);
      assert out + [out[i]] + Repeat(out[i], |ms| - i - 1) == out + Repeat(out[i], |ms| - i);
    } else {
      assert out + Repeat(out[i], 0) == out;
    }
  }

  /** Entries outside the range are copied onto themselves. */
  lemma {:induction false} InPlaceUntouched(ms: seq<Mapping>, i: nat, k: nat, s: u32, e: u32)
    requires i <= k <= |ms|
    requires forall j :: i <= j < k ==> Cut(ms[j], s, e) == [ms[j]]
    ensures InPlace(ms, i, ms[..i], s, e) == InPlace(ms, k, ms[..k], s, e)
    decreases k - i
  {
    if i < k {
      assert ms[..i] + [ms[i]] == ms[..i + 1];
      InPlaceUntouched(ms, i + 1, k, s, e);
    }
  }

  /** Splitting entry `i` of `n`: the first `i` entries and the left part survive, and the right
      part fills the rest of the list `n - i` times over. */
  lemma RemoveSplit(ms: seq<Mapping>, i: nat, s: u32, e: u32)
    requires Tidy(ms) && i < |ms| && s < e && ms[i].Splits(s, e)
    requires forall j :: 0 <= j < i ==> ms[j] != ms[i]
    ensures Removed(ms, s, e)
         == ms[..i] + [ms[i].(end := s)] + Repeat(ms[i].(start := e), |ms| - i)
  {
    assert ms[..0] == [];
    InPlaceUntouched(ms, 0, i, s, e);
    var left, right := ms[i].(end := s), ms[i].(start := e);
    var out := ms[..i] + [left, right];
    assert ms[..i] + Cut(ms[i], s, e) == out;
    InPlaceAfterSplit(ms, i + 1, out, s, e);
    assert [right] + Repeat(right, |ms| - i - 1) == Repeat(right, |ms| - i);
    assert out + Repeat(right, |ms| - i - 1) == ms[..i] + [left] + Repeat(right, |ms| - i);
  }

  lemma {:induction false} SubtractFrom(ms: seq<Mapping>, s: u32, e: u32, x: Mapping)
    requires x in Subtract(ms, s, e)
    ensures exists y :: y in ms && x in Cut(y, s, e)
  {
    if x !in Cut(ms[0], s, e) {
      SubtractFrom(ms[1..], s, e, x);
    }
  }

  lemma TidyTail(ms: seq<Mapping>)
    requires ms != [] && Tidy(ms)
    ensures Tidy(ms[1..]) && ms[0].start < ms[0].end && forall y :: y in ms[1..] ==> ms[0].end <= y.start || ms[0] == y
  {
  }

  /** What is left of the first mapping is before, or the same as, what is left of a later one. */
  lemma CutBefore(m: Mapping, y: Mapping, s: u32, e: u32, x: Mapping)
    requires s < e && !m.Splits(s, e) && Cut(m, s, e) != [] && x in Cut(y, s, e) && (m.end <= y.start || m == y)
    ensures Cut(m, s, e)[0].end <= x.start || Cut(m, s, e)[0] == x
  {
  }

  lemma CutOnce(m: Mapping, s: u32, e: u32)
    requires s < e && m.start < m.end && !m.Splits(s, e)
    ensures |Cut(m, s, e)| <= 1 && forall x :: x in Cut(m, s, e) ==> x.start < x.end
  {
  }

  lemma {:induction false} SubtractTidy(ms: seq<Mapping>, s: u32, e: u32)
    requires s < e && Tidy(ms) && forall y :: y in ms ==> !y.Splits(s, e)
    ensures Tidy(Subtract(ms, s, e))
  {
    if ms != [] {
      hide Tidy, Cut;
      TidyTail(ms);
      assert ms[0] in ms;
      CutOnce(ms[0], s, e);
      var c, t := Cut(ms[0], s, e), Subtract(ms[1..], s, e);
      assert forall y :: y in ms[1..] ==> y in ms;
      SubtractTidy(ms[1..], s, e);
      if c == [] {
        assert c + t == t;
      } else {
        assert c == [c[0]] && c[0] in c;
        forall x | x in t ensures c[0].end <= x.start || c[0] == x {
          SubtractFrom(ms[1..], s, e, x);
          var y :| y in ms[1..] && x in Cut(y, s, e);
          CutBefore(ms[0], y, s, e, x);
        }
        ConsTidy(c[0], t);
      }
    }
  }

  lemma ConsTidy(x: Mapping, t: seq<Mapping>)
    requires Tidy(t) && x.start < x.end && forall y :: y in t ==> x.end <= y.start || x == y
    ensures Tidy([x] + t)
  {
    var r := [x] + t;
    forall i | 0 <= i < |r| ensures r[i] == if i == 0 then x else t[i - 1] {
    }
  }

  /** Whatever it splits, removal leaves a tidy list within the same bounds. */
  lemma RemovedTidy(ms: seq<Mapping>, s: u32, e: u32, max: u32)
    requires s < e && Tidy(ms) && Within(ms, max)
    ensures Tidy(Removed(ms, s, e)) && Within(Removed(ms, s, e), max)
  {
    var r := Removed(ms, s, e);
    if forall i :: 0 <= i < |ms| ==> !ms[i].Splits(s, e) {
      RemoveSafe(ms, s, e);
      SubtractTidy(ms, s, e);
      forall i | 0 <= i < |r| ensures r[i].end <= max { SubtractFrom(ms, s, e, r[i]); }
    } else {
      var i := FirstSplit(ms, s, e);
      RemoveSplit(ms, i, s, e);
      SplitTidy(ms, i, s, e, max);
    }
  }

  lemma SplitTidy(ms: seq<Mapping>, i: nat, s: u32, e: u32, max: u32)
    requires Tidy(ms) && Within(ms, max) && i < |ms| && s < e && ms[i].Splits(s, e)
    requires forall j :: 0 <= j < i ==> ms[j] != ms[i]
    ensures var r := ms[..i] + [ms[i].(end := s)] + Repeat(ms[i].(start := e), |ms| - i);
            Tidy(r) && Within(r, max)
  {
    var r := ms[..i] + [ms[i].(end := s)] + Repeat(ms[i].(start := e), |ms| - i);
    forall j | 0 <= j < |r|
      ensures r[j] == if j < i then ms[j] else if j == i then ms[i].(end := s) else ms[i].(start := e)
    {
    }
  }

  lemma FirstSplit(ms: seq<Mapping>, s: u32, e: u32) returns (i: nat)
    requires exists i :: 0 <= i < |ms| && ms[i].Splits(s, e)
    ensures i < |ms| && ms[i].Splits(s, e) && forall j :: 0 <= j < i ==> ms[j] != ms[i]
  {
    i := 0;
    while !ms[i].Splits(s, e)
      invariant i < |ms| && forall j :: 0 <= j < i ==> !ms[j].Splits(s, e)
      decreases |ms| - i
    {
      i := i + 1;
    }
  }

  lemma RemoveSafe(ms: seq<Mapping>, s: u32, e: u32)
    requires Safe(ms, s, e)
    ensures Removed(ms, s, e) == Subtract(ms, s, e)
  {
    InPlaceSafe(ms, 0, [], s, e);
    assert ms[0..] == ms;
  }

  lemma SplitPiecesAt(m: Mapping, n: nat, s: u32, e: u32, a: int)
    requires m.Splits(s, e) && s < e && n > 0
    ensures At([m.(end := s)] + Repeat(m.(start := e), n), a) == if s <= a < e then None else At([m], a)
  {
    var tail := [m.(end := s)] + Repeat(m.(start := e), n);
    if m.start <= a < s {
      AtIndex(tail, a, 0);
    } else if e <= a < m.end {
      AtIndex(tail, a, 1);
    } else {
      AtNone(tail, a);
    }
  }

  /** An unsafe removal forgets every mapping after the one it splits. */
  lemma RemoveForgets(ms: seq<Mapping>, i: nat, s: u32, e: u32, a: int)
    requires Tidy(ms) && i < |ms| && s < e && ms[i].Splits(s, e) && forall j :: 0 <= j < i ==> ms[j] != ms[i]
    ensures At(Removed(ms, s, e), a) == if s <= a < e || ms[i].end <= a then None else At(ms, a)
  {
    RemoveSplit(ms, i, s, e);
    var pre, rest := ms[..i], ms[i + 1..];
    var tail := [ms[i].(end := s)] + Repeat(ms[i].(start := e), |ms| - i);
    assert Removed(ms, s, e) == pre + tail && ms == pre + [ms[i]] + rest;
    AtConcat(pre, tail, a);
    SplitPiecesAt(ms[i], |ms| - i, s, e, a);
    AtConcat(pre + [ms[i]], rest, a);
    AtConcat(pre, [ms[i]], a);
    if a < ms[i].start { AtNone(rest, a); } else { AtNone(pre, a); }
  }

  /** The in-place loop computes the subtraction exactly when the range is not strictly inside a
      mapping that has a successor. */
  lemma RemoveExact(ms: seq<Mapping>, s: u32, e: u32)
    requires Sorted(ms) && s < e
    ensures Removed(ms, s, e) == Subtract(ms, s, e) <==> Safe(ms, s, e)
    ensures (forall a :: At(Removed(ms, s, e), a) == if s <= a < e then None else At(ms, a)) <==> Safe(ms, s, e)
  {
    if Safe(ms, s, e) {
      RemoveSafe(ms, s, e);
      forall a ensures At(Removed(ms, s, e), a) == if s <= a < e then None else At(ms, a) {
        SubtractAt(ms, s, e, a);
      }
    } else {
      var i :| 0 <= i < |ms| - 1 && ms[i].Splits(s, e);
      var a := ms[i + 1].start;
      RemoveForgets(ms, i, s, e, a);
      AtMember(ms, a, i + 1);
      SubtractAt(ms, s, e, a);
    }
  }

  /** Every mapping after one that the range splits is a copy of it. */
  ghost predicate OnlyCopies(ms: seq<Mapping>, s: u32, e: u32) {
    forall i, j :: 0 <= i < j < |ms| && ms[i].Splits(s, e) ==> ms[j] == ms[i]
  }

  /** The in-place loop unmaps exactly the range. */
  ghost predicate Unmaps(ms: seq<Mapping>, s: u32, e: u32) {
    forall a :: At(Removed(ms, s, e), a) == if s <= a < e then None else At(ms, a)
  }

  /** On any list that is ordered up to repeated entries, which is what removals leave, the loop unmaps
      exactly the range if and only if only copies follow a mapping that the range splits. */
  lemma RemoveTidyExact(ms: seq<Mapping>, s: u32, e: u32)
    requires Tidy(ms) && s < e
    ensures Unmaps(ms, s, e) <==> OnlyCopies(ms, s, e)
  {
    if exists i :: 0 <= i < |ms| && ms[i].Splits(s, e) {
      var i := FirstSplit(ms, s, e);
      forall a ensures At(Removed(ms, s, e), a) == if s <= a < e || ms[i].end <= a then None else At(ms, a) {
        RemoveForgets(ms, i, s, e, a);
      }
      hide Removed;
      if forall j :: i < j < |ms| ==> ms[j] == ms[i] {
        forall a | ms[i].end <= a ensures At(ms, a).None? { AtNone(ms, a); }
        assert OnlyCopies(ms, s, e);
      } else {
        var j :| i < j < |ms| && ms[j] != ms[i];
        AtMember(ms, ms[j].start, j);
        assert At(Removed(ms, s, e), ms[j].start).None?;
      }
    } else {
      RemoveSafe(ms, s, e);
      forall a ensures At(Removed(ms, s, e), a) == if s <= a < e then None else At(ms, a) { SubtractAt(ms, s, e, a); }
    }
  }

  lemma SafeIffCopies(ms: seq<Mapping>, s: u32, e: u32)
    requires Sorted(ms)
    ensures Safe(ms, s, e) <==> OnlyCopies(ms, s, e)
  {
    if OnlyCopies(ms, s, e) {
      forall i | 0 <= i < |ms| - 1 ensures !ms[i].Splits(s, e) { assert ms[i + 1] != ms[i]; }
    }
  }

  /** The smallest failing case: unmapping the middle page of three, with a mapping above it,
      loses the mapping above. */
  lemma RemoveLosesSuccessor()
    ensures var ms := [Mapping(0x1000, 0x4000, 3, "a"), Mapping(0x8000, 0x9000, 3, "b")];
            Sorted(ms) && At(ms, 0x8000).Some? && At(Removed(ms, 0x2000, 0x3000), 0x8000).None?
  {
    var ms := [Mapping(0x1000, 0x4000, 3, "a"), Mapping(0x8000, 0x9000, 3, "b")];
    AtMember(ms, 0x8000, 1);
    RemoveForgets(ms, 0, 0x2000, 0x3000, 0x8000);
  }

  lemma InsertSafe(ms: seq<Mapping>, k: nat, m: Mapping)
    requires k <= |ms| && m.start < m.end && Free(ms, m.start, m.end)
    ensures Safe(Insert(ms, k, m), m.start, m.end)
  {
    var l := Insert(ms, k, m);
    forall i | 0 <= i < |l| - 1 ensures !l[i].Splits(m.start, m.end) {
      if i < k { assert l[i] == ms[i]; } else if i > k { assert l[i] == ms[i - 1]; }
    }
  }

  lemma InsertSubtract(ms: seq<Mapping>, k: nat, m: Mapping)
    requires k <= |ms| && m.start < m.end && Free(ms, m.start, m.end)
    ensures Subtract(Insert(ms, k, m), m.start, m.end) == ms
  {
    var xs, ys := ms[..k], ms[k..];
    calc {
      Subtract(xs + [m] + ys, m.start, m.end);
      { SubtractConcat(xs + [m], ys, m.start, m.end); }
      Subtract(xs + [m], m.start, m.end) + Subtract(ys, m.start, m.end);
      { SubtractConcat(xs, [m], m.start, m.end); SubtractFree(xs, m.start, m.end); SubtractFree(ys, m.start, m.end); }
      xs + Subtract([m], m.start, m.end) + ys;
      { assert Subtract([m], m.start, m.end) == Cut(m, m.start, m.end) + [] == []; }
      ms;
    }
  }

  /** Taking a freshly inserted mapping out again gives back the same list. */
  lemma InsertRemove(ms: seq<Mapping>, k: nat, m: Mapping)
    requires k <= |ms| && m.start < m.end && Free(ms, m.start, m.end)
    ensures Removed(Insert(ms, k, m), m.start, m.end) == ms
  {
    InsertSafe(ms, k, m);
    RemoveSafe(Insert(ms, k, m), m.start, m.end);
    InsertSubtract(ms, k, m);
  }

  // ---------------------------------------------------------------- changing the protection

  /** The first mapping that covers the range, or the length of the list. */
  function Covering(ms: seq<Mapping>, s: u32, e: u32): (i: nat)
    ensures i <= |ms| && (i < |ms| ==> ms[i].Covers(s, e)) && forall j :: 0 <= j < i ==> !ms[j].Covers(s, e)
  {
    if ms == [] || ms[0].Covers(s, e) then 0 else 1 + Covering(ms[1..], s, e)
  }

  lemma CoveringAt(ms: seq<Mapping>, s: u32, e: u32, i: nat)
    requires i <= |ms| && (i < |ms| ==> ms[i].Covers(s, e)) && forall j :: 0 <= j < i ==> !ms[j].Covers(s, e)
    ensures Covering(ms, s, e) == i
  {
    var k := Covering(ms, s, e);
  }

  /** One mapping with the protection of [s, e) changed. */
  function ProtectParts(m: Mapping, s: u32, e: u32, prot: bv8): seq<Mapping> {
    (if s > m.start then [m.(end := s)] else []) + [Mapping(s, e, prot, m.name)]
    + if e < m.end then [m.(start := e)] else []
  }

  /** What the code does to the list: the first covering mapping is replaced by its parts. */
  function Protected(ms: seq<Mapping>, s: u32, e: u32, prot: bv8): seq<Mapping>
    requires Covering(ms, s, e) < |ms|
  {
    var i := Covering(ms, s, e);
    ms[..i] + ProtectParts(ms[i], s, e, prot) + ms[i + 1..]
  }

  lemma ProtectedIs(ms: seq<Mapping>, s: u32, e: u32, prot: bv8, i: nat)
    requires i < |ms| && Covering(ms, s, e) == i
    ensures Protected(ms, s, e, prot) == ms[..i] + ProtectParts(ms[i], s, e, prot) + ms[i + 1..]
  {
  }

  /** No mapping before the first covering one hides a part of the range with another permission. */
  ghost predicate Exposed(ms: seq<Mapping>, s: u32, e: u32, prot: bv8) {
    var before := ms[..Covering(ms, s, e)];
    forall a :: s <= a < e && At(before, a).Some? ==> At(before, a).value.prot == prot
  }

  lemma ProtectedAt(ms: seq<Mapping>, s: u32, e: u32, prot: bv8, a: int)
    requires s < e && Covering(ms, s, e) < |ms|
    ensures s <= a < e ==> At(ms, a).Some?
    ensures var before := ms[..Covering(ms, s, e)];
            At(Protected(ms, s, e, prot), a) ==
            if s <= a < e && At(before, a).None? then WithProt(At(ms, a), prot) else At(ms, a)
  {
    var i := Covering(ms, s, e);
    var m, parts := ms[i], ProtectParts(ms[i], s, e, prot);
    assert ms == ms[..i] + [m] + ms[i + 1..];
    AtConcat(ms[..i] + [m], ms[i + 1..], a);
    AtConcat(ms[..i], [m], a);
    AtConcat(ms[..i] + parts, ms[i + 1..], a);
    AtConcat(ms[..i], parts, a);
    PartsAt(m, s, e, prot, a);
  }

  lemma PartsAt(m: Mapping, s: u32, e: u32, prot: bv8, a: int)
    requires m.start <= s < e <= m.end
    ensures At(ProtectParts(m, s, e, prot), a)
         == if s <= a < e then Some(Perm(prot, m.name)) else At([m], a)
  {
    var l := if s > m.start then [m.(end := s)] else [];
    var r := if e < m.end then [m.(start := e)] else [];
    var mid := Mapping(s, e, prot, m.name);
    AtConcat(l + [mid], r, a);
    AtConcat(l, [mid], a);
  }

  /** On any list, the change takes effect on exactly the range if and only if the covering mapping is
      exposed there. */
  lemma ProtectEffectIff(ms: seq<Mapping>, s: u32, e: u32, prot: bv8)
    requires s < e && Covering(ms, s, e) < |ms|
    ensures Effective(ms, Protected(ms, s, e, prot), s, e, prot) <==> Exposed(ms, s, e, prot)
  {
    hide Protected, Covering;
    var before, r := ms[..Covering(ms, s, e)], Protected(ms, s, e, prot);
    forall a ensures At(r, a) == if s <= a < e && At(before, a).None? then WithProt(At(ms, a), prot) else At(ms, a) {
      ProtectedAt(ms, s, e, prot, a);
    }
    forall a ensures At(before, a).Some? ==> At(ms, a) == At(before, a) { BeforeAt(ms, Covering(ms, s, e), a); }
    if Effective(ms, r, s, e, prot) {
      forall a | s <= a < e && At(before, a).Some? ensures At(before, a).value.prot == prot {
        assert At(r, a) == WithProt(At(ms, a), prot);
      }
      assert Exposed(ms, s, e, prot);
    }
    if Exposed(ms, s, e, prot) {
      forall a ensures At(r, a) == if s <= a < e then WithProt(At(ms, a), prot) else At(ms, a) {
        if s <= a < e && At(before, a).Some? {
          assert At(before, a).value.prot == prot;
          assert WithProt(At(ms, a), prot) == At(ms, a);
        }
      }
      assert Effective(ms, r, s, e, prot);
    }
  }

  /** Exactly the addresses of the range have the new permission. */
  ghost predicate Effective(ms: seq<Mapping>, r: seq<Mapping>, s: int, e: int, prot: bv8) {
    forall a :: At(r, a) == if s <= a < e then WithProt(At(ms, a), prot) else At(ms, a)
  }

  lemma BeforeAt(ms: seq<Mapping>, i: nat, a: int)
    requires i <= |ms|
    ensures At(ms[..i], a).Some? ==> At(ms, a) == At(ms[..i], a)
  {
    assert ms == ms[..i] + ms[i..];
    AtConcat(ms[..i], ms[i..], a);
  }

  /** In a list that is ordered up to repeated entries nothing is hidden. */
  lemma TidyExposed(ms: seq<Mapping>, s: u32, e: u32, prot: bv8)
    requires Tidy(ms) && s < e && Covering(ms, s, e) < |ms|
    ensures Exposed(ms, s, e, prot)
  {
    var i := Covering(ms, s, e);
    forall a | s <= a < e ensures At(ms[..i], a).None? { AtNone(ms[..i], a); }
  }

  lemma PartsSorted(m: Mapping, s: u32, e: u32, prot: bv8)
    requires m.Covers(s, e) && s < e
    ensures var parts := ProtectParts(m, s, e, prot);
            Sorted(parts) && forall k :: 0 <= k < |parts| ==> m.start <= parts[k].start && parts[k].end <= m.end
  {
  }

  lemma ProtectSorted(ms: seq<Mapping>, s: u32, e: u32, prot: bv8, max: u32)
    requires Sorted(ms) && Within(ms, max) && s < e && Covering(ms, s, e) < |ms|
    ensures var r := Protected(ms, s, e, prot);
            Sorted(r) && Tidy(r) && Within(r, max)
  {
    var i := Covering(ms, s, e);
    PartsSorted(ms[i], s, e, prot);
    ReplaceSorted(ms, i, ProtectParts(ms[i], s, e, prot), max);
  }

  lemma RepeatedOverlap(ms: seq<Mapping>, s: u32, e: u32, prot: bv8, j: nat)
    requires s < e && Covering(ms, s, e) < j < |ms|
    requires var m := ms[Covering(ms, s, e)]; ms[j] == m && m != Mapping(s, e, prot, m.name)
    ensures !Tidy(Protected(ms, s, e, prot))
  {
    hide Covering;
    var i := Covering(ms, s, e);
    assert ms[i].Covers(s, e);
    var parts, r := ProtectParts(ms[i], s, e, prot), Protected(ms, s, e, prot);
    var n := |parts|;
    assert r[i] == parts[0] && parts[0].end > ms[i].start && parts[0] != ms[i];
    assert r[j - 1 + n] == ms[j];
  }

  /** The change keeps such a list in order if and only if the covering mapping is not repeated or
      nothing changes. */
  lemma ProtectOrderIff(ms: seq<Mapping>, s: u32, e: u32, prot: bv8)
    requires Tidy(ms) && s < e && Covering(ms, s, e) < |ms|
    ensures var i := Covering(ms, s, e);
            Tidy(Protected(ms, s, e, prot)) <==> ms[i] !in ms[i + 1..] || ms[i] == Mapping(s, e, prot, ms[i].name)
  {
    hide Tidy;
    var i := Covering(ms, s, e);
    var m, r := ms[i], Protected(ms, s, e, prot);
    if m == Mapping(s, e, prot, m.name) {
      assert r == ms;
    } else if m in ms[i + 1..] {
      var j :| 0 <= j < |ms[i + 1..]| && ms[i + 1..][j] == m;
      RepeatedOverlap(ms, s, e, prot, i + 1 + j);
    } else {
      PartsSorted(m, s, e, prot);
      ReplaceTidy(ms, i, ProtectParts(m, s, e, prot));
    }
  }

  lemma ReplaceTidy(ms: seq<Mapping>, i: nat, parts: seq<Mapping>)
    requires Tidy(ms) && i < |ms| && ms[i] !in ms[..i] && ms[i] !in ms[i + 1..]
    requires Sorted(parts) && forall k :: 0 <= k < |parts| ==>
             ms[i].start <= parts[k].start && parts[k].end <= ms[i].end
    ensures Tidy(ms[..i] + parts + ms[i + 1..])
  {
    var r, n := ms[..i] + parts + ms[i + 1..], |parts|;
    assert forall k :: 0 <= k < i ==> ms[k] == ms[..i][k] && ms[k].end <= ms[i].start;
    assert forall k :: i < k < |ms| ==> ms[k] == ms[i + 1..][k - i - 1] && ms[i].end <= ms[k].start;
    forall x, y | 0 <= x < y < |r| ensures r[x].end <= r[y].start || r[x] == r[y] {
      if x < i {
        assert r[x] == ms[x];
        if y < i { assert r[y] == ms[y]; } else if y >= i + n { assert r[y] == ms[y - n + 1]; }
      } else if x >= i + n {
        assert r[x] == ms[x - n + 1] && r[y] == ms[y - n + 1];
      } else if y >= i + n {
        assert r[y] == ms[y - n + 1];
      }
    }
  }

  /** A list that a removal leaves when it splits a mapping with a successor. */
  function RepeatedList(): seq<Mapping> {
    [Mapping(0x1000, 0x2000, 3, "a"), Mapping(0x3000, 0x6000, 3, "a"), Mapping(0x3000, 0x6000, 3, "a")]
  }

  lemma RepeatedReached()
    ensures var ms := [Mapping(0x1000, 0x6000, 3, "a"), Mapping(0x8000, 0x9000, 3, "b")];
            Sorted(ms) && Removed(ms, 0x2000, 0x3000) == RepeatedList()
  {
    var ms := [Mapping(0x1000, 0x6000, 3, "a"), Mapping(0x8000, 0x9000, 3, "b")];
    RemoveSplit(ms, 0, 0x2000, 0x3000);
    assert ms[0].(start := 0x3000) == Mapping(0x3000, 0x6000, 3, "a");
  }

  /** Protecting a page of the repeated mapping leaves a list out of order, on which a further change
      succeeds and has no effect on its first page. */
  lemma ProtectHidden()
    ensures Covering(RepeatedList(), 0x4000, 0x5000) < |RepeatedList()|
    ensures var once := Protected(RepeatedList(), 0x4000, 0x5000, 1);
            && !Tidy(once) && Covering(once, 0x3000, 0x6000) < |once|
            && At(Protected(once, 0x3000, 0x6000, 1), 0x3000) == Some(Perm(3, "a"))
  {
    var ms, m := RepeatedList(), Mapping(0x3000, 0x6000, 3, "a");
    CoveringAt(ms, 0x4000, 0x5000, 1);
    RepeatedOverlap(ms, 0x4000, 0x5000, 1, 2);
    var once := Protected(ms, 0x4000, 0x5000, 1);
    assert ProtectParts(m, 0x4000, 0x5000, 1)
           == [m.(end := 0x4000), Mapping(0x4000, 0x5000, 1, "a"), m.(start := 0x5000)];
    assert once == [ms[0], m.(end := 0x4000), Mapping(0x4000, 0x5000, 1, "a"), m.(start := 0x5000), m];
    HiddenStep(once, m.(end := 0x4000));
  }

  lemma HiddenStep(once: seq<Mapping>, l: Mapping)
    requires |once| == 5 && once[1] == l && l.prot == 3 && l.name == "a" && l.start == 0x3000 && l.end == 0x4000
    requires once[0].end == 0x2000 && once[2].end == 0x5000 && once[3].start == 0x5000 && once[4].Covers(0x3000, 0x6000)
    ensures Covering(once, 0x3000, 0x6000) < |once|
            && At(Protected(once, 0x3000, 0x6000, 1), 0x3000) == Some(Perm(3, "a"))
  {
    CoveringAt(once, 0x3000, 0x6000, 4);
    var twice := Protected(once, 0x3000, 0x6000, 1);
    assert twice[0] == once[0] && twice[1] == l;
    AtIndex(twice, 0x3000, 1);
  }
}
