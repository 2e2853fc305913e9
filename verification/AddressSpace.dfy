/** A guest address space: its bytes, its mapping list and the permission checks between them. */
module AddressSpaces {
  import opened Words
  import opened Bytes
  import opened Mappings
  import opened Sortings

  const PROT_READ: bv8 := 1
  const PROT_WRITE: bv8 := 2
  const PROT_EXEC: bv8 := 4

  /** A start from which `size` bytes are in range and free. */
  predicate Fits(ms: seq<Mapping>, max: u32, start: u32, size: u32) {
    start <= max && size <= max - start && Free(ms, start, start + size)
  }

  /** First fit: the lowest free start from `cursor` up in an ordered list. */
  function Scan(ms: seq<Mapping>, max: u32, size: u32, cursor: u32): Option<u32> {
    if ms == [] then (if size <= Sub32(max, cursor) then Some(cursor) else None)
    else if cursor <= ms[0].start && size <= ms[0].start - cursor then Some(cursor)
    else Scan(ms[1..], max, size, if ms[0].end > cursor then ms[0].end else cursor)
  }

  /** The hole that is chosen for `size` bytes: the page of the hint, else the page of the running hint,
      else first fit from 0x1000. */
  function HoleFor(ms: seq<Mapping>, max: u32, size: u32, hint: u32, nextHint: u32): Option<u32> {
    var first, second := PageDown(if hint < 0x1000 then 0x1000 else hint), PageDown(nextHint);
    if size == 0 || size > max then None
    else if Fits(ms, max, first, size) then Some(first)
    else if Fits(ms, max, second, size) then Some(second)
    else Scan(ms, max, size, 0x1000)
  }

  /** First fit never goes below its cursor, whatever the list. */
  lemma {:induction false} ScanAbove(ms: seq<Mapping>, max: u32, size: u32, cursor: u32)
    ensures var hole := Scan(ms, max, size, cursor); hole.Some? ==> cursor <= hole.value
  {
    if ms != [] && !(cursor <= ms[0].start && size <= ms[0].start - cursor) {
      ScanAbove(ms[1..], max, size, if ms[0].end > cursor then ms[0].end else cursor);
    }
  }

  /** In a tidy list it finds the lowest free start, and none only when there is none. */
  lemma {:induction false} ScanFinds(ms: seq<Mapping>, i: nat, max: u32, size: u32, cursor: u32)
    requires Tidy(ms) && Within(ms, max) && 0 < size && i <= |ms| && 0x1000 <= cursor <= max
    requires forall j :: 0 <= j < i ==> ms[j].end <= cursor
    requires forall s: u32 :: 0x1000 <= s < cursor ==> !Fits(ms, max, s, size)
    ensures var hole := Scan(ms[i..], max, size, cursor);
            if hole.Some? then 0x1000 <= hole.value && Fits(ms, max, hole.value, size)
                               && forall s: u32 :: 0x1000 <= s < hole.value ==> !Fits(ms, max, s, size)
            else forall s: u32 :: 0x1000 <= s ==> !Fits(ms, max, s, size)
    decreases |ms| - i
  {
    if i < |ms| {
      var m := ms[i];
      if cursor <= m.start && size <= m.start - cursor {
        assert forall j :: i < j < |ms| ==> m.start <= ms[j].start;
      } else {
        forall s: u32 | cursor <= s < m.end ensures !Fits(ms, max, s, size) { assert ms[i].Overlaps(s, s + size); }
        ScanFinds(ms, i + 1, max, size, if m.end > cursor then m.end else cursor);
        assert ms[i..][1..] == ms[i + 1..];
      }
    }
  }

  /** No hole lies below 0x1000 unless the running hint does. */
  lemma HoleAbove(ms: seq<Mapping>, max: u32, size: u32, hint: u32, nextHint: u32)
    requires 0x1000 <= nextHint
    ensures var hole := HoleFor(ms, max, size, hint, nextHint); hole.Some? ==> 0x1000 <= hole.value
  {
    ScanAbove(ms, max, size, 0x1000);
  }

  /** With less than a page of memory the last bounds test wraps around. */
  lemma {:induction false} ScanSmall(ms: seq<Mapping>, max: u32, size: u32)
    requires Tidy(ms) && Within(ms, max) && 0 < size <= max < 0x1000
    ensures Scan(ms, max, size, 0x1000) == Some(0x1000)
  {
    if ms != [] {
      assert ms[0].start < ms[0].end <= max;
      ScanSmall(ms[1..], max, size);
    }
  }

  /** The page of the hint is taken if it fits. */
  lemma HintFirst(ms: seq<Mapping>, max: u32, size: u32, hint: u32, nextHint: u32)
    ensures 0 < size && 0x1000 <= hint && Fits(ms, max, hint - hint % 0x1000, size) ==>
              HoleFor(ms, max, size, hint, nextHint) == Some(hint - hint % 0x1000)
    ensures 0 < size && hint < 0x1000 && Fits(ms, max, 0x1000, size) ==>
              HoleFor(ms, max, size, hint, nextHint) == Some(0x1000)
  {
  }

  /** What the search gives in a tidy list. */
  lemma HoleInTidy(ms: seq<Mapping>, max: u32, size: u32, hint: u32, nextHint: u32)
    requires Tidy(ms) && Within(ms, max) && 0x1000 <= nextHint
    ensures var hole := HoleFor(ms, max, size, hint, nextHint);
            && (hole.Some? && 0x1000 <= max ==> 0x1000 <= hole.value && Fits(ms, max, hole.value, size))
            && (0x1000 <= max ==>
                (hole.None? <==> size == 0 || forall s: u32 :: 0x1000 <= s ==> !Fits(ms, max, s, size)))
            && (max < 0x1000 && 0 < size <= max ==> hole == Some(0x1000))
  {
    HoleAbove(ms, max, size, hint, nextHint);
    assert ms[0..] == ms;
    if 0 < size && 0x1000 <= max { ScanFinds(ms, 0, max, size, 0x1000); }
    if 0 < size <= max < 0x1000 { ScanSmall(ms, max, size); }
  }

  /** In a tidy list a usable hole is found exactly when there is one from 0x1000 up. */
  lemma HoleFinds(ms: seq<Mapping>, max: u32, size: u32, hint: u32, nextHint: u32)
    requires Tidy(ms) && Within(ms, max) && 0x1000 <= nextHint
    ensures size != 0 && !Unusable(ms, max, size, HoleFor(ms, max, size, hint, nextHint)) <==>
            size != 0 && exists s: u32 :: 0x1000 <= s && Fits(ms, max, s, size)
  {
    HoleAbove(ms, max, size, hint, nextHint);
    assert ms[0..] == ms;
    if 0 < size && 0x1000 <= max { ScanFinds(ms, 0, max, size, 0x1000); }
  }

  /** There is no hole, or the one found is not free after all. */
  predicate Unusable(ms: seq<Mapping>, max: u32, size: u32, hole: Option<u32>) {
    hole.None? || !Fits(ms, max, hole.value, size)
  }

  /** Go's `append`: in place while there is capacity, otherwise into a larger copy. */
  method AppendEntry(a: array<Mapping>, count: nat, m: Mapping)
    returns (out: array<Mapping>, count': nat)
    requires count <= a.Length
    modifies a
    ensures count' == count + 1 <= out.Length
    ensures out[..count'] == old(a[..count]) + [m]
    ensures if count < a.Length then out == a else fresh(out)
    ensures forall k :: 0 <= k < a.Length && k != count ==> a[k] == old(a[k])
  {
    if count < a.Length {
      out := a;
    } else {
      out := new Mapping[2 * count + 1](i => m);
      for k := 0 to count
        invariant out[..k] == a[..k] && a[..] == old(a[..])
      {
        out[k] := a[k];
      }
      assert out[..count] == old(a[..count]);
    }
    out[count] := m;
    count' := count + 1;
  }

  /** Appends what is left of `m` when [s, e) is taken away. */
  method AppendCut(a: array<Mapping>, count: nat, m: Mapping, s: u32, e: u32)
    returns (out: array<Mapping>, count': nat)
    requires count <= a.Length
    modifies a
    ensures count <= count' <= out.Length
    ensures out[..count'] == old(a[..count]) + Cut(m, s, e)
    ensures if count' <= a.Length then out == a else fresh(out)
    ensures forall k :: 0 <= k < a.Length && (k < count || count' <= k) ==> a[k] == old(a[k])
    ensures forall k :: count <= k < count' && k < a.Length ==> a[k] == out[k]
  {
    out, count' := a, count;
    if e <= m.start || s >= m.end {
      out, count' := AppendEntry(out, count', m);
    } else {
      if s > m.start {
        out, count' := AppendEntry(out, count', m.(end := s));
      }
      if e < m.end {
        out, count' := AppendEntry(out, count', m.(start := e));
      }
    }
  }

  /** Filters the first `n` entries of `back` into `back` itself, as a slice append does: the kept
      entries overwrite the array being read until the capacity is exceeded, and move to a larger
      copy after that. */
  method RemoveInPlace(back: array<Mapping>, n: nat, s: u32, e: u32)
    returns (out: array<Mapping>, count: nat)
    requires n <= back.Length
    modifies back
    ensures count <= out.Length
    ensures out[..count] == Removed(old(back[..n]), s, e)
  {
    ghost var ms, kept := back[..n], [];
    out, count := back, 0;
    for i := 0 to n
      invariant count <= out.Length && (out == back || (fresh(out) && n <= count))
      invariant kept == out[..count]
      invariant forall k :: i <= k < n ==> back[k] == if k < |kept| then kept[k] else ms[k]
      invariant InPlace(ms, i, kept, s, e) == Removed(ms, s, e)
    {
      var m := back[i];
      out, count := AppendCut(out, count, m, s, e);
      kept := kept + Cut(m, s, e);
    }
  }

  /** The backing array of a slice: the entries, and any amount of spare capacity after them. */
  method ToArray(ms: seq<Mapping>) returns (a: array<Mapping>)
    ensures fresh(a) && |ms| <= a.Length && a[..|ms|] == ms
  {
    var spare :| 0 <= spare;
    a := new Mapping[|ms| + spare];
    for k := 0 to |ms|
      invariant a[..k] == ms[..k]
    {
      a[k] := ms[k];
    }
  }

  /** The part of an address space that decides which accesses are permitted. */
  datatype View = View(mappings: seq<Mapping>, max: u32, protected: bool) {
    /** Access to [addr, addr + width) is in bounds and, once protection is on, the walk from mapping to
        mapping gets through. */
    ghost predicate Permits(addr: u32, width: u32, need: bv8) {
      addr + width <= max && (protected && width != 0 ==> Walk(mappings, addr, addr + width, need))
    }

    /** On a list in ascending order that is when every byte is mapped with all requested bits. */
    lemma PermitsBytes(addr: u32, width: u32, need: bv8)
      requires Ascending(mappings)
      ensures Permits(addr, width, need) <==>
              addr + width <= max && (protected && width != 0 ==> Allows(mappings, addr, addr + width, need))
    {
      WalkAllows(mappings, addr, addr + width, need);
    }
  }

  /** A NUL-terminated string of fewer than `limit` bytes at `addr`, all of it readable. */
  ghost predicate StringAt(v: View, d: seq<u8>, addr: u32, limit: u32, s: seq<u8>) {
    && addr + |s| < |d| && |s| < limit && 0 !in s
    && d[addr..addr + |s|] == s && d[addr + |s|] == 0
    && forall a :: addr <= a <= addr + |s| ==> a < 0x1_0000_0000 && v.Permits(a, 1, PROT_READ)
  }

  class AddressSpace {
    const data: array<u8>
    const max: u32
    var mappings: seq<Mapping>
    var nextHint: u32
    var protected: bool

    ghost predicate Valid()
      reads this
    {
      && Sized()
      && Tidy(mappings) && Within(mappings, max)
      && 0x1000 <= nextHint
    }

    /** Guest memory has as many bytes as the space. */
    ghost predicate Sized() { data.Length == max }

    ghost function Access(): View
      reads this
    {
      View(mappings, max, protected)
    }

    ghost predicate CanAccess(addr: u32, width: u32, need: bv8)
      reads this
    {
      Access().Permits(addr, width, need)
    }

    constructor (size: u32)
      ensures Valid() && fresh(data) && !protected
      ensures max == (if size < 0x1_0000 then 0x1_0000 else size)
      ensures mappings == [] && (forall i :: 0 <= i < max ==> data[i] == 0)
    {
      var n: u32 := if size < 0x1_0000 then 0x1_0000 else size;
      data := new u8[n](i => 0);
      max := n;
      mappings, nextHint, protected := [], 0x0100_0000, false;
    }

    // -------------------------------------------------------------- mapping list

    method IsFree(start: u32, end: u32) returns (free: bool)
      ensures free <==> Free(mappings, start, end)
    {
      for i := 0 to |mappings|
        invariant forall j :: 0 <= j < i ==> !mappings[j].Overlaps(start, end)
      {
        if start < mappings[i].end && end > mappings[i].start { return false; }
      }
      free := true;
    }

    method MappingAt(addr: u32) returns (found: Option<Mapping>)
      ensures found == FirstAt(mappings, addr)
      ensures found.Some? <==> At(mappings, addr).Some?
      ensures found.Some? ==> found.value in mappings && found.value.Has(addr)
      ensures found.Some? ==> At(mappings, addr) == Some(Perm(found.value.prot, found.value.name))
    {
      for i := 0 to |mappings|
        invariant forall j :: 0 <= j < i ==> !mappings[j].Has(addr)
      {
        if addr >= mappings[i].start && addr < mappings[i].end {
          FirstAtIndex(mappings, addr, i);
          return Some(mappings[i]);
        }
      }
      FirstAtIndex(mappings, addr, |mappings|);
      found := None;
    }

    /** Adds a mapping and sorts the list: fails exactly on an empty, out-of-range or overlapping request.
        By `AddsOnlyIff` the addition maps exactly the requested range unless a sort changes which of
        several mappings comes first; in a tidy list it just inserts. */
    method Add(start: u32, size: u32, prot: bv8, name: string) returns (ok: bool)
      modifies this`mappings
      ensures ok <==> size != 0 && Fits(old(mappings), max, start, size)
      ensures !ok ==> mappings == old(mappings)
      ensures ok ==> Sorting(old(mappings) + [Mapping(start, start + size, prot, name)], mappings)
      ensures old(Valid()) ==> Valid() && (Sorted(old(mappings)) ==> Sorted(mappings))
      ensures old(Valid()) && ok ==> Inserted(old(mappings), mappings, Mapping(start, start + size, prot, name))
    {
      if size == 0 || start > max || size > max - start { return false; }
      var end := start + size;
      for i := 0 to |mappings|
        invariant forall j :: 0 <= j < i ==> !mappings[j].Overlaps(start, end)
      {
        if start < mappings[i].end && end > mappings[i].start { return false; }
      }
      hide Sorting, Tidy, Within, Inserted, Sorted;
      var m := Mapping(start, end, prot, name);
      ghost var ms, valid := mappings, Valid();
      mappings := SortByStart(mappings + [m]);
      if valid { SortingInserts(ms, m, mappings, max); }
      ok := true;
    }

    /** Removes a range.  The list becomes what the in-place filter leaves; by `RemoveExact` that is
        the pointwise removal exactly when no mapping but the last is split. */
    method Remove(start: u32, size: u32) returns (ok: bool)
      modifies this`mappings
      ensures ok <==> size != 0 && start + size <= max
      ensures !ok ==> mappings == old(mappings)
      ensures ok ==> mappings == Removed(old(mappings), start, start + size)
      ensures old(Valid()) ==> Valid()
      ensures ok && Sorted(old(mappings)) && Safe(old(mappings), start, start + size) ==>
                Sorted(mappings)
    {
      if size == 0 || start > max || size > max - start { return false; }
      var end := start + size;
      ghost var ms := mappings;
      var back := ToArray(mappings);
      var out, count := RemoveInPlace(back, |mappings|, start, end);
      mappings := out[..count];
      if Tidy(ms) && Within(ms, max) { RemovedTidy(ms, start, end, max); }
      if Sorted(ms) && Safe(ms, start, end) {
        RemoveExact(ms, start, end);
        SubtractSorted(ms, start, end);
      }
      ok := true;
    }

    /** Changes the protection of a range that lies inside one mapping; any other range is refused. */
    method Protect(start: u32, size: u32, prot: bv8) returns (ok: bool)
      modifies this`mappings
      ensures ok <==> size != 0 && start + size <= max && Covering(old(mappings), start, start + size) < |old(mappings)|
      ensures ok <==>
              && size != 0 && start + size <= max
              && exists i :: 0 <= i < |old(mappings)| && old(mappings)[i].start <= start
                           && start + size <= old(mappings)[i].end
      ensures !ok ==> mappings == old(mappings)
      ensures ok ==> mappings == Protected(old(mappings), start, start + size, prot)
      ensures old(Valid()) && Sorted(old(mappings)) ==> Valid() && Sorted(mappings)
    {
      hide Sorted, Tidy, Within, Covering, Protected;
      var end := Add32(start, size);
      if size == 0 || end < start || end > max { return false; }
      for i := 0 to |mappings|
        invariant mappings == old(mappings)
        invariant forall j :: 0 <= j < i ==> !mappings[j].Covers(start, end)
      {
        var m := mappings[i];
        if start >= m.start && end <= m.end {
          ghost var ms := mappings;
          CoveringAt(ms, start, end, i);
          if Sorted(ms) && Within(ms, max) { ProtectSorted(ms, start, end, prot, max); }
          var parts := if start > m.start then [m.(end := start)] else [];
          parts := parts + [Mapping(start, end, prot, m.name)];
          parts := parts + if end < m.end then [m.(start := end)] else [];
          mappings := mappings[..i] + parts + mappings[i + 1..];
          ProtectedIs(ms, start, end, prot, i);
          return true;
        }
      }
      CoveringAt(mappings, start, end, |mappings|);
      ok := false;
    }

    /** The lowest free start at or above 0x1000.  With less than a page of memory the last bounds
        test wraps around, and the answer lies outside the space. */
    method FirstFit(size: u32) returns (hole: Option<u32>)
      requires 0 < size <= max
      ensures hole == Scan(mappings, max, size, 0x1000)
      ensures Valid() && 0x1000 <= max && hole.Some? ==>
                && 0x1000 <= hole.value && Fits(mappings, max, hole.value, size)
                && forall s: u32 :: 0x1000 <= s < hole.value ==> !Fits(mappings, max, s, size)
      ensures Valid() && 0x1000 <= max && hole.None? ==> forall s: u32 :: 0x1000 <= s ==> !Fits(mappings, max, s, size)
      ensures Valid() && max < 0x1000 ==> hole == Some(0x1000)
    {
      var cursor: u32 := 0x1000;
      assert mappings[0..] == mappings;
      if Valid() && 0x1000 <= max { ScanFinds(mappings, 0, max, size, 0x1000); }
      if Valid() && max < 0x1000 { ScanSmall(mappings, max, size); }
      for i := 0 to |mappings|
        invariant Scan(mappings, max, size, 0x1000) == Scan(mappings[i..], max, size, cursor)
      {
        var m := mappings[i];
        assert mappings[i..][1..] == mappings[i + 1..];
        if cursor <= m.start && size <= m.start - cursor { return Some(cursor); }
        if m.end > cursor { cursor := m.end; }
      }
      hole := if size <= Sub32(max, cursor) then Some(cursor) else None;
    }

    /** The bounds and overlap tests of one candidate. */
    method Fitting(candidate: u32, size: u32) returns (fits: bool)
      ensures fits <==> Fits(mappings, max, candidate, size)
      ensures fits ==> candidate + size <= max
    {
      if candidate > max || size > max - candidate { return false; }
      fits := IsFree(candidate, candidate + size);
    }

    /** Searches for a free range: the page of the hint, then the page of the running hint, then
        first fit from 0x1000.  With `max` at least a page the result is in range, free and at or
        above 0x1000, and failure means that there is no such range at all. */
    method FindHole(size: u32, hint: u32) returns (hole: Option<u32>)
      modifies this`nextHint
      ensures hole == HoleFor(mappings, max, size, hint, old(nextHint))
      ensures 0 < size && 0x1000 <= hint && Fits(mappings, max, hint - hint % 0x1000, size) ==>
                hole == Some(hint - hint % 0x1000)
      ensures 0 < size && hint < 0x1000 && Fits(mappings, max, 0x1000, size) ==> hole == Some(0x1000)
      ensures nextHint == if hole.None? then old(nextHint) else Add32(hole.value, size)
      ensures old(Valid()) ==> Valid()
      ensures old(Valid()) && hole.Some? && 0x1000 <= max ==>
                0x1000 <= hole.value && Fits(mappings, max, hole.value, size) && nextHint == hole.value + size
      ensures old(Valid()) && 0x1000 <= max ==>
                (hole.None? <==> size == 0 || forall s: u32 :: 0x1000 <= s ==> !Fits(mappings, max, s, size))
      ensures old(Valid()) && max < 0x1000 && 0 < size <= max ==> hole == Some(0x1000)
    {
      hide Tidy, Within, Scan, Fits;
      HintFirst(mappings, max, size, hint, nextHint);
      if Valid() { HoleInTidy(mappings, max, size, hint, nextHint); }
      if size == 0 || size > max { return None; }
      var h := if hint < 0x1000 then 0x1000 else hint;
      var candidates := [h, nextHint];
      assert candidates[0] == h && candidates[1] == nextHint;
      for c := 0 to 2
        invariant nextHint == old(nextHint)
        invariant forall j :: 0 <= j < c ==> !Fits(mappings, max, PageDown(candidates[j]), size)
      {
        var candidate := PageDown(candidates[c]);
        var fits := Fitting(candidate, size);
        if fits {
          nextHint := candidate + size;
          assert c == 0 || c == 1;
          return Some(candidate);
        }
      }
      hole := FirstFit(size);
      if hole.Some? { nextHint := Add32(hole.value, size); }
    }

    /** Maps `size` bytes at `addr`, or at a hole of the kernel's choosing when `addr` is 0. */
    method MapAnonymous(addr: u32, size: u32, prot: bv8, name: string) returns (mapped: Option<u32>)
      modifies this`mappings, this`nextHint
      ensures mapped.None? ==> mappings == old(mappings)
      ensures mapped.Some? && addr == 0 ==> mapped == HoleFor(old(mappings), max, size, old(nextHint), old(nextHint))
      ensures mapped.Some? ==>
                && size != 0 && Fits(old(mappings), max, mapped.value, size)
                && (addr != 0 ==> mapped.value == addr && nextHint == old(nextHint))
                && Sorting(old(mappings) + [Mapping(mapped.value, mapped.value + size, prot, name)], mappings)
      ensures mapped.None? <==>
              (size == 0 || if addr != 0 then !Fits(old(mappings), max, addr, size)
                            else Unusable(old(mappings), max, size,
                                          HoleFor(old(mappings), max, size, old(nextHint), old(nextHint))))
      ensures old(Valid()) ==> Valid() && (Sorted(old(mappings)) ==> Sorted(mappings))
      ensures old(Valid()) && mapped.Some? ==>
                && (addr == 0 ==> 0x1000 <= mapped.value)
                && Inserted(old(mappings), mappings, Mapping(mapped.value, mapped.value + size, prot, name))
      ensures old(Valid()) ==>
                (mapped.None? <==> (size == 0 || if addr != 0 then !Fits(old(mappings), max, addr, size)
                                                 else forall s: u32 :: 0x1000 <= s ==>
                                                   !Fits(old(mappings), max, s, size)))
    {
      hide Scan, Tidy, Within, Free, Sorting, Inserted, Sorted, PageDown;
      var at := addr;
      if addr == 0 {
        var hole := FindHole(size, nextHint);
        if hole.None? { return None; }
        at := hole.value;
      } else if addr > max || size > max - addr || Add32(addr, size) < addr {
        return None;
      } else {
        var free := IsFree(addr, addr + size);
        if !free { return None; }
      }
      var ok := Add(at, size, prot, name);
      if !ok { return None; }
      mapped := Some(at);
    }

    // -------------------------------------------------------------- permission checks

    /** Walks from mapping to mapping; on a list in ascending order of start it succeeds exactly when every
        byte of the range is mapped with all requested bits. */
    method CheckRange(addr: u32, width: u32, need: bv8) returns (ok: bool)
      ensures ok <==> width == 0 || (addr + width <= max && Walk(mappings, addr, addr + width, need))
      ensures Ascending(mappings) ==>
              (ok <==> width == 0 || (addr + width <= max && Allows(mappings, addr, addr + width, need)))
    {
      if Ascending(mappings) { WalkAllows(mappings, addr, addr + width, need); }
      if width == 0 { return true; }
      if addr > max || width > max - addr { return false; }
      var end := addr + width;
      var cursor := addr;
      while cursor < end
        invariant addr <= cursor <= end
        invariant Walk(mappings, addr, end, need) == Walk(mappings, cursor, end, need)
      {
        var found := MappingAt(cursor);
        if found.None? { return false; }
        var m := found.value;
        if !Grants(m.prot, need) { return false; }
        if m.end <= cursor { return false; }
        cursor := if m.end < end then m.end else end;
      }
      ok := true;
    }

    method CheckAccess(addr: u32, width: u32, need: bv8) returns (ok: bool)
      requires Sized()
      ensures ok <==> CanAccess(addr, width, need)
      ensures Ascending(mappings) ==>
              (ok <==> addr + width <= max && (protected && width != 0 ==> Allows(mappings, addr, addr + width, need)))
    {
      if Ascending(mappings) { Access().PermitsBytes(addr, width, need); }
      if addr > data.Length || width > data.Length - addr { return false; }
      if !protected || width == 0 { return true; }
      ok := CheckRange(addr, width, need);
    }

    // -------------------------------------------------------------- guest memory

    method ReadBytes(addr: u32, size: u32) returns (bytes: Option<seq<u8>>)
      requires Sized()
      ensures bytes.Some? <==> CanAccess(addr, size, PROT_READ)
      ensures bytes.Some? ==> bytes.value == data[addr..addr + size]
    {
      var ok := CheckAccess(addr, size, PROT_READ);
      bytes := if ok then Some(data[addr..addr + size]) else None;
    }

    method WriteBytes(addr: u32, value: seq<u8>) returns (ok: bool)
      requires Sized() && |value| < 0x1_0000_0000
      modifies data
      ensures ok <==> CanAccess(addr, |value|, PROT_WRITE)
      ensures data[..] == if ok then Splice(old(data[..]), addr, value) else old(data[..])
    {
      ok := CheckAccess(addr, |value|, PROT_WRITE);
      if ok {
        forall i | 0 <= i < |value| { data[addr + i] := value[i]; }
        assert data[..] == Splice(old(data[..]), addr, value);
      }
    }

    method Read32(addr: u32) returns (word: Option<u32>)
      requires Sized()
      ensures word.Some? <==> CanAccess(addr, 4, PROT_READ)
      ensures word.Some? ==> word.value == Get32(data[..], addr)
    {
      var ok := CheckAccess(addr, 4, PROT_READ);
      word := if ok then Some(Get32(data[..], addr)) else None;
    }

    method Write32(addr: u32, value: u32) returns (ok: bool)
      requires Sized()
      modifies data
      ensures ok <==> CanAccess(addr, 4, PROT_WRITE)
      ensures data[..] == if ok then Splice(old(data[..]), addr, Put32(value)) else old(data[..])
    {
      ok := WriteBytes(addr, Put32(value));
    }

    /** Reads a NUL-terminated string of fewer than `limit` bytes, and fails exactly when there is
        none; a limit of 0 reads nothing. */
    method ReadCString(addr: u32, limit: u32) returns (text: Option<seq<u8>>)
      requires Sized()
      ensures limit == 0 ==> text == Some([])
      ensures limit != 0 && text.Some? ==> StringAt(Access(), data[..], addr, limit, text.value)
      ensures limit != 0 && text.None? ==> forall s :: !StringAt(Access(), data[..], addr, limit, s)
    {
      if limit == 0 { return Some([]); }
      if addr > data.Length || 1 > data.Length - addr { return None; }
      var end := addr;
      var stop := if limit < data.Length - addr then addr + limit else data.Length;
      ghost var v, d := Access(), data[..];
      while end < stop
        invariant addr <= end <= stop <= data.Length
        invariant 0 !in d[addr..end]
        invariant forall a :: addr <= a < end ==> v.Permits(a, 1, PROT_READ)
      {
        var ok := CheckAccess(end, 1, PROT_READ);
        if !ok {
          StringPast(v, d, addr, limit, end);
          return None;
        }
        if data[end] == 0 { break; }
        end := end + 1;
      }
      if end == stop {
        StringPast(v, d, addr, limit, end);
        return None;
      }
      text := Some(data[addr..end]);
    }
  }

  /** No string ends before `end` when there is no NUL before it, so none can be read when the byte
      at `end` cannot. */
  lemma StringPast(v: View, d: seq<u8>, addr: u32, limit: u32, end: int)
    requires addr <= end <= |d| < 0x1_0000_0000 && 0 !in d[addr..end]
    requires end == |d| || end == addr + limit || !v.Permits(end, 1, PROT_READ)
    ensures forall s :: !StringAt(v, d, addr, limit, s)
  {
    assert forall a :: addr <= a < end ==> d[a] in d[addr..end];
  }
}
