/** The memory system calls of the kernel: mmap2, mremap, munmap and brk. */
module MemorySyscalls {
  import opened Words
  import opened Bytes
  import opened Mappings
  import opened Sortings
  import opened AddressSpaces
  import opened Errno

  const MAP_FIXED: nat := 0x10
  const MAP_ANONYMOUS: nat := 0x20
  const MREMAP_MAYMOVE: nat := 1
  const MREMAP_FIXED: nat := 2

  const READ_WRITE: bv8 := 3
  const HEAP: string := "[heap]"
  const MMAP2: string := "mmap2"

  datatype Result = Ok(value: u32) | Err(errno: int)

  /** What reading a file-backed mapping's descriptor yields. */
  datatype FileSource = NotAFile | ReadFailed | Contents(bytes: seq<u8>)

  /** Rounds a length up to pages.  0xfffff001 passes the guard and wraps around to 0. */
  function PageLength(length: u32): Option<u32> {
    if length == 0 || length > 0xffff_ffff - 4094 then None else Some(PageDown(Add32(length, 4095)))
  }

  lemma PageLengthRounds(length: u32)
    ensures PageLength(length).Some? <==> 0 < length <= 0xffff_f001
    ensures PageLength(length).Some? ==> PageLength(length).value % 0x1000 == 0
    ensures PageLength(length).Some? ==>
              (length <= PageLength(length).value < length + 0x1000 <==> length != 0xffff_f001)
  {
  }

  function ProtOf(linuxProt: u32): bv8 {
    (if HasFlag(linuxProt, 1) then PROT_READ else 0) | (if HasFlag(linuxProt, 2) then PROT_WRITE else 0)
    | (if HasFlag(linuxProt, 4) then PROT_EXEC else 0)
  }

  function Zeros(n: nat): (z: seq<u8>)
    ensures |z| == n && forall i :: 0 <= i < n ==> z[i] == 0
  {
    seq(n, _ => 0)
  }

  /** The first `n` bytes of a file, zero-filled past its end. */
  function Fill(bytes: seq<u8>, n: nat): (r: seq<u8>)
    ensures |r| == n
  {
    if n <= |bytes| then bytes[..n] else bytes + Zeros(n - |bytes|)
  }

  /** A range that splits no mapping, or none but the last, is cut out pointwise. */
  lemma RemovedAt(ms: seq<Mapping>, s: u32, e: u32)
    requires Sorted(ms) && s < e && Safe(ms, s, e)
    ensures Sorted(Removed(ms, s, e))
    ensures forall a :: At(Removed(ms, s, e), a) == if s <= a < e then None else At(ms, a)
  {
    RemoveExact(ms, s, e);
    SubtractSorted(ms, s, e);
  }

  /** What a new mapping holds: zeros when it is anonymous, else the file's bytes. */
  function InitialBytes(file: FileSource, flags: u32, size: nat): (r: seq<u8>)
    requires HasFlag(flags, MAP_ANONYMOUS) || file.Contents?
    ensures |r| == size
  {
    if HasFlag(flags, MAP_ANONYMOUS) then Zeros(size) else Fill(file.bytes, size)
  }

  lemma SpanAt(ms: seq<Mapping>, m: Mapping)
    requires Tidy(ms) && m in ms
    ensures forall a :: m.Has(a) ==> At(ms, a) == Some(Perm(m.prot, m.name))
  {
    var k :| 0 <= k < |ms| && ms[k] == m;
    forall a | m.Has(a) ensures At(ms, a) == Some(Perm(m.prot, m.name)) { AtMember(ms, a, k); }
  }

  /** The mapping of the address at which another one ends starts there. */
  lemma StartsThere(ms: seq<Mapping>, last: Mapping, m: Mapping)
    requires Tidy(ms) && last in ms && m in ms && m.Has(last.end)
    ensures m.start == last.end
  {
    var i :| 0 <= i < |ms| && ms[i] == last;
    var j :| 0 <= j < |ms| && ms[j] == m;
  }

  lemma ProtOfBits(linuxProt: u32)
    ensures Grants(ProtOf(linuxProt), PROT_READ) <==> HasFlag(linuxProt, 1)
    ensures Grants(ProtOf(linuxProt), PROT_WRITE) <==> HasFlag(linuxProt, 2)
    ensures Grants(ProtOf(linuxProt), PROT_EXEC) <==> HasFlag(linuxProt, 4)
    ensures ProtOf(linuxProt) <= 7
  {
  }

  /** Every byte of [s, e) can be accessed as asked for, and in no other way. */
  ghost predicate AccessAsAsked(ms: seq<Mapping>, s: int, e: int, linuxProt: u32) {
    forall a :: s <= a < e ==>
      && At(ms, a).Some? && At(ms, a).value.prot <= 7
      && (Grants(At(ms, a).value.prot, PROT_READ) <==> HasFlag(linuxProt, 1))
      && (Grants(At(ms, a).value.prot, PROT_WRITE) <==> HasFlag(linuxProt, 2))
      && (Grants(At(ms, a).value.prot, PROT_EXEC) <==> HasFlag(linuxProt, 4))
  }

  /** The `size` bytes from `at` are those of the file, then zeros; without a file, all zeros. */
  ghost predicate HoldsFile(d: seq<u8>, at: nat, size: nat, file: FileSource, flags: u32) {
    at + size <= |d|
    && forall i :: 0 <= i < size ==>
         d[at + i] == if !HasFlag(flags, MAP_ANONYMOUS) && file.Contents? && i < |file.bytes| then file.bytes[i] else 0
  }

  lemma InitialHolds(d: seq<u8>, at: nat, size: nat, file: FileSource, flags: u32)
    requires at + size <= |d| && (HasFlag(flags, MAP_ANONYMOUS) || file.Contents?)
    ensures HoldsFile(Splice(d, at, InitialBytes(file, flags, size)), at, size, file, flags)
  {
  }

  /** A mapping just added decides for its addresses. */
  lemma AddedAt(ms: seq<Mapping>, ms': seq<Mapping>, m: Mapping, a: int)
    requires Added(ms, ms', m) && m.Has(a)
    ensures At(ms', a) == Some(Perm(m.prot, m.name))
  {
    SameMembers(ms + [m], ms', m);
    assert (ms + [m])[|ms|] == m;
    AtNone(ms', a);
    var i := FirstIndex(ms', a);
    SameMembers(ms + [m], ms', ms'[i]);
    var k :| 0 <= k < |ms + [m]| && (ms + [m])[k] == ms'[i];
  }

  /** What a new mmap2 mapping gives the program. */
  lemma MappedGives(ms: seq<Mapping>, ms': seq<Mapping>, d: seq<u8>, d': seq<u8>, at: u32, size: u32, linuxProt: u32,
                    file: FileSource, flags: u32)
    requires at + size < 0x1_0000_0000 && (HasFlag(flags, MAP_ANONYMOUS) || file.Contents?)
    requires Mapped(ms, ms', d, d', Mapping(at, at + size, ProtOf(linuxProt), MMAP2), InitialBytes(file, flags, size))
    ensures HoldsFile(d', at, size, file, flags) && AccessAsAsked(ms', at, at + size, linuxProt)
  {
    hide Added, Splice, InitialBytes, HoldsFile, At, ProtOf;
    InitialHolds(d, at, size, file, flags);
    ProtOfBits(linuxProt);
    forall a | at <= a < at + size ensures At(ms', a) == Some(Perm(ProtOf(linuxProt), MMAP2)) {
      AddedAt(ms, ms', Mapping(at, at + size, ProtOf(linuxProt), MMAP2), a);
    }
  }

  lemma SpliceTwice(d: seq<u8>, a: nat, b: seq<u8>, n: nat)
    requires |b| <= n && a + n <= |d|
    ensures Splice(Splice(d, a, Zeros(n)), a, b) == Splice(d, a, b + Zeros(n - |b|))
  {
  }

  /** A mapping was added and the list sorted; in a tidy list that just inserts it. */
  ghost predicate Added(ms: seq<Mapping>, ms': seq<Mapping>, m: Mapping) {
    && m.start < m.end && Free(ms, m.start, m.end) && Sorting(ms + [m], ms')
    && (Tidy(ms) ==> Inserted(ms, ms', m) && Tidy(ms')) && (Sorted(ms) ==> Sorted(ms'))
  }

  lemma AddedIntro(ms: seq<Mapping>, ms': seq<Mapping>, m: Mapping)
    requires m.start < m.end && Free(ms, m.start, m.end) && Sorting(ms + [m], ms')
    ensures Added(ms, ms', m)
  {
    if Tidy(ms) { SortingInserts(ms, m, ms', 0xffff_ffff); }
  }

  /** A new mapping over a free range, whose bytes become `bytes`; nothing else changes. */
  ghost predicate Mapped(ms: seq<Mapping>, ms': seq<Mapping>, d: seq<u8>, d': seq<u8>, m: Mapping, bytes: seq<u8>) {
    && Added(ms, ms', m) && m.end == m.start + |bytes| && m.end <= |d|
    && d' == Splice(d, m.start, bytes)
  }

  lemma MappedIntro(ms: seq<Mapping>, ms': seq<Mapping>, d: seq<u8>, d': seq<u8>, m: Mapping, bytes: seq<u8>)
    requires m.start < m.end && m.end == m.start + |bytes| && m.end <= |d| && Free(ms, m.start, m.end)
    requires Sorting(ms + [m], ms') && d' == Splice(d, m.start, bytes)
    ensures Mapped(ms, ms', d, d', m, bytes)
  {
    AddedIntro(ms, ms', m);
  }

  /** Where memory is mapped: at `at`, or in the hole that is found when `at` is 0. */
  function Place(ms: seq<Mapping>, max: u32, nextHint: u32, at: u32, size: u32): Option<u32> {
    if at != 0 then Some(at) else HoleFor(ms, max, size, nextHint, nextHint)
  }

  /** Memory for `size` bytes can be mapped there. */
  predicate Addable(ms: seq<Mapping>, max: u32, nextHint: u32, at: u32, size: u32) {
    var place := Place(ms, max, nextHint, at, size);
    size != 0 && place.Some? && Fits(ms, max, place.value, size)
  }

  /** There is room for `size` bytes at `at`, or somewhere when `at` is 0. */
  ghost predicate Placeable(ms: seq<Mapping>, max: u32, at: u32, size: u32) {
    size != 0 && if at != 0 then Fits(ms, max, at, size) else exists s: u32 :: 0x1000 <= s && Fits(ms, max, s, size)
  }

  /** In a tidy list memory can be mapped exactly when there is room for it. */
  lemma AddableIff(ms: seq<Mapping>, max: u32, nextHint: u32, at: u32, size: u32)
    requires Tidy(ms) && Within(ms, max) && 0x1000 <= nextHint
    ensures Addable(ms, max, nextHint, at, size) <==> Placeable(ms, max, at, size)
  {
    hide Tidy, Within, Fits, HoleFor;
    HoleFinds(ms, max, size, nextHint, nextHint);
  }

  /** A hint is used only when it is aligned, in range and free; otherwise the kernel chooses. */
  function HintAt(ms: seq<Mapping>, max: u32, addr: u32, size: u32): u32 {
    if 0x1000 <= addr && addr % 0x1000 == 0 && Fits(ms, max, addr, size) then addr else 0
  }

  /** What was mapped before lies outside a new mapping. */
  lemma MappedFresh(ms: seq<Mapping>, ms': seq<Mapping>, d: seq<u8>, d': seq<u8>, m: Mapping, bytes: seq<u8>, a: int)
    requires Mapped(ms, ms', d, d', m, bytes) && At(ms, a).Some?
    ensures a < m.start || m.end <= a
  {
    MappedNotFree(ms, m.start, m.end, a);
  }

  /** A MAP_FIXED request succeeds: in range and readable so far; at address 0 there must be a hole. */
  ghost predicate FixedOk(v: View, nextHint: u32, addr: u32, size: u32, prot: bv8) {
    && addr % 0x1000 == 0 && addr + size <= v.max && v.Permits(addr, size, PROT_READ)
    && (addr == 0 ==> Addable(Removed(v.mappings, 0, size), v.max, nextHint, 0, size))
    && (v.protected ==> Grants(prot, PROT_WRITE))
  }

  /** There is no place for a request: a fixed one must be in range and aligned, and at address 0, if it gets
      there, or without MAP_FIXED it must find a hole. */
  ghost predicate NoRoom(v: View, nextHint: u32, addr: u32, size: u32, fixed: bool) {
    if fixed then
      || addr % 0x1000 != 0 || addr + size > v.max
      || (addr == 0 && v.Permits(0, size, PROT_READ)
          && !Addable(Removed(v.mappings, 0, size), v.max, nextHint, 0, size))
    else !Addable(v.mappings, v.max, nextHint, HintAt(v.mappings, v.max, addr, size), size)
  }

  /** Any other request succeeds: it finds a place and, once protection is on, it will be writable. */
  ghost predicate HoleOk(v: View, nextHint: u32, addr: u32, size: u32, linuxProt: u32) {
    && Addable(v.mappings, v.max, nextHint, HintAt(v.mappings, v.max, addr, size), size)
    && (v.protected ==> HasFlag(linuxProt, 2))
  }

  /** In a tidy list the hint does not matter: such a request succeeds exactly when there is room somewhere
      and, once protection is on, the mapping will be writable. */
  lemma HoleOkIff(v: View, nextHint: u32, addr: u32, size: u32, linuxProt: u32)
    requires Tidy(v.mappings) && Within(v.mappings, v.max) && 0x1000 <= nextHint
    ensures HoleOk(v, nextHint, addr, size, linuxProt) <==>
            Placeable(v.mappings, v.max, 0, size) && (v.protected ==> HasFlag(linuxProt, 2))
  {
    hide Tidy, Within, Addable;
    AddableIff(v.mappings, v.max, nextHint, HintAt(v.mappings, v.max, addr, size), size);
  }

  /** The mmap2 calls that get as far as adding a mapping to a list they do not put back. */
  ghost predicate MapAdds(v: View, nextHint: u32, addr: u32, length: u32, flags: u32, file: FileSource) {
    && 0 < length <= 0x400_0000 && (HasFlag(flags, MAP_ANONYMOUS) || file.Contents?) && !HasFlag(flags, MAP_FIXED)
    && Addable(v.mappings, v.max, nextHint, HintAt(v.mappings, v.max, addr, PageAlignUp(length)), PageAlignUp(length))
  }

  /** All of [s, e) is mapped with the permission and name of its first byte. */
  ghost predicate Uniform(ms: seq<Mapping>, s: u32, e: int) {
    At(ms, s).Some? && forall a :: s <= a < e ==> At(ms, a) == At(ms, s)
  }

  ghost predicate Spans(ms: seq<Mapping>, s: int, e: int, p: Perm) {
    forall a :: s <= a < e ==> At(ms, a) == Some(p)
  }

  /** Mappings with permission and name `p` follow each other from `c`, each starting where the last one
      ends, up to `e`. */
  predicate Chain(ms: seq<Mapping>, c: int, e: int, p: Perm)
    decreases e - c
  {
    c >= e || (var m := FirstAt(ms, c);
               m.Some? && m.value.start == c && Perm(m.value.prot, m.value.name) == p && Chain(ms, m.value.end, e, p))
  }

  /** From `s` to `e` there is such a chain. */
  predicate Contiguous(ms: seq<Mapping>, s: int, e: int) {
    var m := FirstAt(ms, s);
    m.Some? && Chain(ms, m.value.end, e, Perm(m.value.prot, m.value.name))
  }

  lemma {:induction false} ChainSpans(ms: seq<Mapping>, last: Mapping, e: int, p: Perm)
    requires Tidy(ms) && last in ms
    ensures Chain(ms, last.end, e, p) <==> Spans(ms, last.end, e, p)
    decreases e - last.end
  {
    var c := last.end;
    if c < e && FirstAt(ms, c).Some? {
      var m := FirstAt(ms, c).value;
      StartsThere(ms, last, m);
      SpanAt(ms, m);
      ChainSpans(ms, m, e, p);
    }
  }

  /** In a tidy list a chain is a uniformly mapped range. */
  lemma ContiguousIff(ms: seq<Mapping>, s: u32, e: int)
    requires Tidy(ms)
    ensures Contiguous(ms, s, e) <==> Uniform(ms, s, e)
  {
    hide Tidy, Chain;
    if FirstAt(ms, s).Some? {
      var m := FirstAt(ms, s).value;
      SpanAt(ms, m);
      ChainSpans(ms, m, e, Perm(m.prot, m.name));
    }
  }

  /** The pages that would extend the range in place are in range and free. */
  ghost predicate Roomy(v: View, oldEnd: u32, newEnd: int) {
    newEnd <= v.max && Free(v.mappings, oldEnd, newEnd)
  }

  /** The range can be extended in place. */
  ghost predicate Growable(v: View, oldEnd: u32, newEnd: int, prot: bv8) {
    Roomy(v, oldEnd, newEnd) && (v.protected ==> Grants(prot, PROT_WRITE))
  }

  /** The address that a move asks for: 0 leaves the choice to the kernel. */
  function Target(flags: u32, newAddr: u32): u32 {
    if HasFlag(flags, MREMAP_FIXED) then newAddr else 0
  }

  /** The old bytes are readable, and there is a place to move to. */
  ghost predicate Relocatable(v: View, nextHint: u32, oldAddr: u32, oldSize: u32, newSize: u32, flags: u32,
                              newAddr: u32) {
    && v.Permits(oldAddr, oldSize, PROT_READ)
    && (HasFlag(flags, MREMAP_FIXED) ==> newAddr % 0x1000 == 0 && Fits(v.mappings, v.max, newAddr, newSize))
    && Addable(v.mappings, v.max, nextHint, Target(flags, newAddr), newSize)
  }

  /** And that place will be writable. */
  ghost predicate Movable(v: View, nextHint: u32, oldAddr: u32, oldSize: u32, newSize: u32, prot: bv8, flags: u32,
                          newAddr: u32) {
    Relocatable(v, nextHint, oldAddr, oldSize, newSize, flags, newAddr) && (v.protected ==> Grants(prot, PROT_WRITE))
  }

  /** Why a move is refused: EFAULT when the old bytes cannot be read or the new ones cannot be written, EINVAL
      when the address asked for cannot be had, ENOMEM when there is no hole. */
  ghost predicate MoveRefused(v: View, nextHint: u32, oldAddr: u32, oldSize: u32, newSize: u32, flags: u32,
                              newAddr: u32, errno: int) {
    var readable := v.Permits(oldAddr, oldSize, PROT_READ);
    var askable := HasFlag(flags, MREMAP_FIXED) ==> newAddr % 0x1000 == 0 && Fits(v.mappings, v.max, newAddr, newSize);
    && errno in {EFAULT, EINVAL, ENOMEM}
    && (errno == EINVAL <==> readable && !askable)
    && (errno == ENOMEM <==>
        readable && askable && !Addable(v.mappings, v.max, nextHint, Target(flags, newAddr), newSize))
  }

  /** When mremap succeeds, for lengths rounded to pages. */
  ghost predicate Resizable(v: View, nextHint: u32, oldAddr: u32, oldSize: u32, newSize: u32, flags: u32, newAddr: u32)
    requires oldAddr + oldSize <= v.max && At(v.mappings, oldAddr).Some?
  {
    var prot := At(v.mappings, oldAddr).value.prot;
    || newSize <= oldSize
    || Growable(v, oldAddr + oldSize, oldAddr + newSize, prot)
    || (HasFlag(flags, MREMAP_MAYMOVE) && oldSize != 0
        && Movable(v, nextHint, oldAddr, oldSize, newSize, prot, flags, newAddr))
  }

  /** The resizes that get as far as adding a mapping. */
  ghost predicate ResizeAdds(v: View, nextHint: u32, oldAddr: u32, oldSize: u32, newSize: u32, flags: u32, newAddr: u32)
    requires oldAddr + oldSize <= v.max
  {
    && oldSize < newSize
    && (Roomy(v, oldAddr + oldSize, oldAddr + newSize)
        || (HasFlag(flags, MREMAP_MAYMOVE) && Relocatable(v, nextHint, oldAddr, oldSize, newSize, flags, newAddr)))
  }

  /** The arguments of an mremap that passes its first checks. */
  ghost predicate Remappable(v: View, oldAddr: u32, oldLength: u32, newLength: u32) {
    && PageLength(oldLength).Some? && PageLength(newLength).Some?
    && oldAddr % 0x1000 == 0 && oldAddr + PageLength(oldLength).value <= v.max
    && Contiguous(v.mappings, oldAddr, oldAddr + PageLength(oldLength).value)
  }

  /** The mremap calls that get as far as adding a mapping. */
  ghost predicate RemapAdds(v: View, nextHint: u32, oldAddr: u32, oldLength: u32, newLength: u32, flags: u32,
                            newAddr: u32) {
    && Remappable(v, oldAddr, oldLength, newLength)
    && ResizeAdds(v, nextHint, oldAddr, PageLength(oldLength).value, PageLength(newLength).value, flags, newAddr)
  }

  /** The bytes after a resize that fails. */
  ghost function ResizeFailed(v: View, nextHint: u32, d: seq<u8>, oldAddr: u32, oldSize: u32, newSize: u32, prot: bv8,
                              flags: u32, newAddr: u32): seq<u8> {
    var at := Place(v.mappings, v.max, nextHint, Target(flags, newAddr), newSize);
    if oldSize == 0 < newSize && HasFlag(flags, MREMAP_MAYMOVE)
      && Movable(v, nextHint, oldAddr, 0, newSize, prot, flags, newAddr)
       && at.Some? && at.value + newSize <= |d|
    then Splice(d, at.value, Zeros(newSize))
    else d
  }

  /** A move that is carried out and undone, because an old length that rounds to 0 cannot be removed. */
  ghost predicate Undone(v: View, nextHint: u32, oldAddr: u32, oldLength: u32, newLength: u32, flags: u32,
                         newAddr: u32) {
    && PageLength(oldLength) == Some(0) && PageLength(newLength).Some? && PageLength(newLength).value != 0
    && oldAddr % 0x1000 == 0 && oldAddr <= v.max && At(v.mappings, oldAddr).Some?
    && HasFlag(flags, MREMAP_MAYMOVE)
    && Movable(v, nextHint, oldAddr, 0, PageLength(newLength).value, At(v.mappings, oldAddr).value.prot, flags, newAddr)
  }

  /** The bytes after an mremap that fails: unchanged, unless a move was undone, which leaves zeros where
      it went. */
  ghost function FailedBytes(v: View, nextHint: u32, d: seq<u8>, oldAddr: u32, oldLength: u32, newLength: u32,
                             flags: u32, newAddr: u32): seq<u8> {
    if Undone(v, nextHint, oldAddr, oldLength, newLength, flags, newAddr) then
      var size := PageLength(newLength).value;
      var at := Place(v.mappings, v.max, nextHint, Target(flags, newAddr), size);
      if at.Some? && at.value + size <= |d| then Splice(d, at.value, Zeros(size)) else d
    else d
  }

  /** Zeroing changes nothing exactly when there are only zeros. */
  lemma ZeroedIff(d: seq<u8>, at: nat, n: nat)
    requires at + n <= |d|
    ensures Splice(d, at, Zeros(n)) == d <==> d[at..at + n] == Zeros(n)
  {
    var r := Splice(d, at, Zeros(n));
    if r == d { assert r[at..at + n] == Zeros(n); }
    if d[at..at + n] == Zeros(n) {
      forall i | 0 <= i < |d| ensures r[i] == d[i] {
        if at <= i < at + n { assert d[i] == d[at..at + n][i - at]; }
      }
    }
  }

  /** A failing mremap leaves every byte as it was if and only if no move was undone or the place it went
      to held only zeros. */
  lemma FailureKeepsBytesIff(v: View, nextHint: u32, d: seq<u8>, oldAddr: u32, oldLength: u32, newLength: u32,
                             flags: u32, newAddr: u32)
    requires |d| == v.max
    ensures FailedBytes(v, nextHint, d, oldAddr, oldLength, newLength, flags, newAddr) == d <==>
            (Undone(v, nextHint, oldAddr, oldLength, newLength, flags, newAddr) ==>
               var size := PageLength(newLength).value;
               var at := Place(v.mappings, v.max, nextHint, Target(flags, newAddr), size).value;
               d[at..at + size] == Zeros(size))
  {
    if Undone(v, nextHint, oldAddr, oldLength, newLength, flags, newAddr) {
      var size := PageLength(newLength).value;
      ZeroedIff(d, Place(v.mappings, v.max, nextHint, Target(flags, newAddr), size).value, size);
    }
  }

  lemma FailedAt(v: View, nextHint: u32, d: seq<u8>, oldAddr: u32, oldLength: u32, newLength: u32, flags: u32,
                 newAddr: u32, size: u32, at: u32)
    requires Undone(v, nextHint, oldAddr, oldLength, newLength, flags, newAddr) && PageLength(newLength) == Some(size)
    requires Place(v.mappings, v.max, nextHint, Target(flags, newAddr), size) == Some(at) && at + size <= |d|
    ensures FailedBytes(v, nextHint, d, oldAddr, oldLength, newLength, flags, newAddr) == Splice(d, at, Zeros(size))
  {
    hide Undone, Place, Zeros, Splice, PageLength;
  }

  /** A mapped address, writable if protection is on, and a hole for `size` bytes. */
  ghost predicate HoleBeside(v: View, nextHint: u32, addr: u32, size: u32, hole: u32) {
    && addr % 0x1000 == 0 && addr <= v.max && At(v.mappings, addr).Some? && 0 < size
    && (v.protected ==> Grants(At(v.mappings, addr).value.prot, PROT_WRITE))
    && 0x1000 <= hole && Fits(v.mappings, v.max, hole, size)
      && HoleFor(v.mappings, v.max, size, nextHint, nextHint) == Some(hole)
  }

  /** There such a failure happens: growing a length that rounds to 0 fails and zeroes the hole. */
  lemma FailureZeroes(v: View, nextHint: u32, d: seq<u8>, addr: u32, newLength: u32, size: u32, hole: u32)
    requires HoleBeside(v, nextHint, addr, size, hole) && PageLength(newLength) == Some(size) && |d| == v.max
    ensures Undone(v, nextHint, addr, 0xffff_f001, newLength, MREMAP_MAYMOVE, 0)
            && !Resizable(v, nextHint, addr, 0, size, MREMAP_MAYMOVE, 0)
    ensures FailedBytes(v, nextHint, d, addr, 0xffff_f001, newLength, MREMAP_MAYMOVE, 0) == Splice(d, hole, Zeros(size))
  {
    hide At, Free, HoleFor, Zeros, Splice, PageLength, Growable, Grants;
    MappedNotGrowable(v, addr, size, At(v.mappings, addr).value.prot);
    RoundsToNothing();
    assert Addable(v.mappings, v.max, nextHint, 0, size);
    assert Movable(v, nextHint, addr, 0, size, At(v.mappings, addr).value.prot, MREMAP_MAYMOVE, 0);
    FailedAt(v, nextHint, d, addr, 0xffff_f001, newLength, MREMAP_MAYMOVE, 0, size, hole);
  }

  lemma MappedNotGrowable(v: View, addr: u32, size: u32, prot: bv8)
    requires At(v.mappings, addr).Some? && 0 < size
    ensures !Growable(v, addr, addr + size, prot)
  {
    if Free(v.mappings, addr, addr + size) { MappedNotFree(v.mappings, addr, addr + size, addr); }
  }

  lemma RoundsToNothing()
    ensures PageLength(0xffff_f001) == Some(0)
  {
  }

  /** One writable page with a hole after it, protection on, is a concrete case. */
  lemma HoleBesidePage(ms: seq<Mapping>)
    requires ms == [Mapping(0x1000, 0x2000, 3, "a")]
    ensures HoleBeside(View(ms, 0x1_0000, true), 0x2000, 0x1000, 0x1000, 0x2000) && PageLength(0x1000) == Some(0x1000)
  {
    AtIndex(ms, 0x1000, 0);
  }

  /** A new mapping can be written exactly when its protection says so, once protection is on. */
  lemma FillableIff(v: View, ms: seq<Mapping>, m: Mapping, n: u32)
    requires Sorting(ms + [m], v.mappings) && Free(ms, m.start, m.end) && m.end <= v.max && m.start + n <= m.end
    ensures v.Permits(m.start, n, PROT_WRITE) <==> n == 0 || (v.protected ==> Grants(m.prot, PROT_WRITE))
  {
    hide Walk, Sorting;
    if n > 0 { NewWalk(ms, m, v.mappings, m.start, m.start + n, PROT_WRITE); }
  }

  /** MAP_FIXED maps exactly its range anew, and touches no other address, if and only if the address is
      not 0, where the mapping goes elsewhere, and only copies follow a mapping that the range is strictly
      inside; in a sorted list, if it is not strictly inside a mapping with a successor. */
  lemma FixedExact(ms: seq<Mapping>, ms': seq<Mapping>, addr: u32, size: u32, at: u32, p: Perm)
    requires Tidy(ms) && 0 < size && addr + size < 0x1_0000_0000 && at + size < 0x1_0000_0000
    requires if addr == 0 then 0x1000 <= at else at == addr
    requires Free(Removed(ms, addr, addr + size), at, at + size)
    requires Inserted(Removed(ms, addr, addr + size), ms', Mapping(at, at + size, p.prot, p.name))
    ensures Replaced(ms, ms', addr, addr + size, p) <==> addr != 0 && OnlyCopies(ms, addr, addr + size)
    ensures Sorted(ms) ==> (Replaced(ms, ms', addr, addr + size, p) <==> addr != 0 && Safe(ms, addr, addr + size))
  {
    hide Sorted, Tidy, Free, Inserted, Safe, OnlyCopies, Removed;
    var mid, m := Removed(ms, addr, addr + size), Mapping(at, at + size, p.prot, p.name);
    InsertedAt(mid, ms', m);
    RemoveTidyExact(ms, addr, addr + size);
    if Sorted(ms) { SafeIffCopies(ms, addr, addr + size); }
    if Replaced(ms, ms', addr, addr + size, p) {
      RemovedHole(ms, addr, addr + size);
      assert At(ms', addr) == Some(p);
      assert m.Has(addr);
      forall a ensures At(mid, a) == if addr <= a < addr + size then None else At(ms, a) {
        if m.Has(a) { FreeAt(mid, m.start, m.end, a); } else { assert At(mid, a) == At(ms', a); }
      }
      assert Unmaps(ms, addr, addr + size);
    }
    if addr != 0 && OnlyCopies(ms, addr, addr + size) {
      forall a ensures At(ms', a) == if addr <= a < addr + size then Some(p) else At(ms, a) {
        assert At(mid, a) == if addr <= a < addr + size then None else At(ms, a);
      }
      assert Replaced(ms, ms', addr, addr + size, p);
    }
  }

  /** Exactly [s, e) is mapped anew. */
  ghost predicate Replaced(ms: seq<Mapping>, ms': seq<Mapping>, s: int, e: int, p: Perm) {
    forall a :: At(ms', a) == if s <= a < e then Some(p) else At(ms, a)
  }

  lemma RemovedHole(ms: seq<Mapping>, s: u32, e: u32)
    requires s < e
    ensures At(Removed(ms, s, e), s).None?
  {
    RemovedFree(ms, s, e);
    FreeAt(Removed(ms, s, e), s, e, s);
  }

  /** The failing case at 0, with protection on and page 0 mapped: the call succeeds, page 0 is unmapped and
      the new mapping is elsewhere. */
  lemma FixedAtZero(v: View, nextHint: u32, ms': seq<Mapping>, at: u32, p: Perm)
    requires v == View([Mapping(0, 0x1000, 3, "a")], 0x1_0000, true) && p.prot == 3 && 0x1000 <= nextHint
    requires Place(Removed(v.mappings, 0, 0x1000), v.max, nextHint, 0, 0x1000) == Some(at)
    requires Inserted(Removed(v.mappings, 0, 0x1000), ms', Mapping(at, at + 0x1000, p.prot, p.name))
    ensures FixedOk(v, nextHint, 0, 0x1000, p.prot) && Safe(v.mappings, 0, 0x1000) && At(v.mappings, 0).Some?
    ensures 0x1000 <= at && At(ms', 0).None?
  {
    var ms := v.mappings;
    assert Removed(ms, 0, 0x1000) == [];
    forall a | 0 <= a < 0x1000 ensures At(ms, a) == Some(Perm(3, "a")) { AtIndex(ms, a, 0); }
    assert Fits([], v.max, 0x1000, 0x1000);
    InsertedAt([], ms', Mapping(at, at + 0x1000, p.prot, p.name));
  }

  /** A moving mremap: a fresh range holds the old bytes followed by zeros, and the old range is
      removed. */
  ghost predicate Moved(ms: seq<Mapping>, ms': seq<Mapping>, d: seq<u8>, d': seq<u8>,
                        src: u32, oldSize: u32, dst: u32, newSize: u32) {
    && 0 < oldSize < newSize && src + oldSize <= |d| < 0x1_0000_0000 && At(ms, src).Some?
    && dst + newSize <= |d| && Free(ms, dst, dst + newSize)
    && d' == Splice(d, dst, d[src..src + oldSize] + Zeros(newSize - oldSize))
    && var e, dstEnd, p := src + oldSize, dst + newSize, At(ms, src).value;
       exists full :: MovedVia(ms, full, ms', src, e, dst, dstEnd, p)
  }

  /** The list of a move: the new range is added, then the old one is removed. */
  ghost predicate MovedVia(ms: seq<Mapping>, full: seq<Mapping>, ms': seq<Mapping>, s: u32, e: u32, dst: u32,
                           dstEnd: u32, p: Perm) {
    Added(ms, full, Mapping(dst, dstEnd, p.prot, p.name)) && ms' == Removed(full, s, e)
  }

  /** What a successful mremap does: nothing, unmap the tail, extend with zeroed pages, or move. */
  ghost predicate Remapped(ms: seq<Mapping>, ms': seq<Mapping>, d: seq<u8>, d': seq<u8>,
                           oldAddr: u32, oldSize: u32, newSize: u32, flags: u32, at: u32)
    requires oldAddr + oldSize <= |d| < 0x1_0000_0000 && At(ms, oldAddr).Some?
  {
    if newSize == oldSize then
      at == oldAddr && ms' == ms && d' == d
    else if newSize < oldSize then
      at == oldAddr && d' == d && ms' == Removed(ms, oldAddr + newSize, oldAddr + oldSize)
    else if at == oldAddr then
      && oldAddr + newSize <= |d|
      && Mapped(ms, ms', d, d',
                Mapping(oldAddr + oldSize, oldAddr + newSize, At(ms, oldAddr).value.prot, At(ms, oldAddr).value.name),
                Zeros(newSize - oldSize))
    else
      HasFlag(flags, MREMAP_MAYMOVE) && Moved(ms, ms', d, d', oldAddr, oldSize, at, newSize)
  }

  /** The old range is not strictly inside a mapping that has a successor once the new range is added. */
  predicate MoveSafe(ms: seq<Mapping>, s: u32, e: u32, dst: u32) {
    forall i :: 0 <= i < |ms| && ms[i].Splits(s, e) ==> i == |ms| - 1 && dst < ms[i].start
  }

  /** A move unmaps the old range, maps the new one with the same permissions, and changes no other
      address, if and only if the old range is not strictly inside a mapping that has a successor, old
      or new.  The new range is known before the call. */
  lemma MoveExact(ms: seq<Mapping>, ms': seq<Mapping>, d: seq<u8>, d': seq<u8>,
                  src: u32, oldSize: u32, newSize: u32, nextHint: u32, target: u32)
    requires |d| < 0x1_0000_0000 && Place(ms, |d|, nextHint, target, newSize).Some?
    requires Sorted(ms) && Moved(ms, ms', d, d', src, oldSize, Place(ms, |d|, nextHint, target, newSize).value, newSize)
    ensures var dst := Place(ms, |d|, nextHint, target, newSize).value;
            (forall a :: At(ms', a) == if src <= a < src + oldSize then None
                                       else if dst <= a < dst + newSize then At(ms, src)
                                       else At(ms, a))
            <==> MoveSafe(ms, src, src + oldSize, dst)
  {
    hide MovedVia, MoveSafe, Sorted, Place, Splice, Zeros;
    var dst := Place(ms, |d|, nextHint, target, newSize).value;
    var p, s, e := At(ms, src).value, src, src + oldSize;
    var full :| MovedVia(ms, full, ms', s, e, dst, dst + newSize, p);
    MovedViaOpen(ms, full, ms', s, e, dst, dst + newSize, p);
    MovedViaExact(ms, full, s, e, Mapping(dst, dst + newSize, p.prot, p.name));
  }

  lemma MovedViaOpen(ms: seq<Mapping>, full: seq<Mapping>, ms': seq<Mapping>, s: u32, e: u32, dst: u32, dstEnd: u32,
                     p: Perm)
    requires Sorted(ms) && MovedVia(ms, full, ms', s, e, dst, dstEnd, p)
    ensures Inserted(ms, full, Mapping(dst, dstEnd, p.prot, p.name)) && Sorted(full) && ms' == Removed(full, s, e)
  {
  }

  lemma MovedViaExact(ms: seq<Mapping>, full: seq<Mapping>, s: u32, e: u32, m: Mapping)
    requires Sorted(full) && s < e && m.start < m.end && At(ms, s) == Some(Perm(m.prot, m.name))
    requires Free(ms, m.start, m.end) && Inserted(ms, full, m)
    ensures (forall a :: At(Removed(full, s, e), a) ==
               if s <= a < e then None else if m.start <= a < m.end then At(ms, s) else At(ms, a))
            <==> MoveSafe(ms, s, e, m.start)
  {
    InsertedAt(ms, full, m);
    var k :| 0 <= k <= |ms| && full == Insert(ms, k, m);
    MoveSafeInsert(ms, k, m, s, e);
    RemoveExact(full, s, e);
  }

  lemma MovedIntro(ms: seq<Mapping>, full: seq<Mapping>, ms': seq<Mapping>, d: seq<u8>, d': seq<u8>,
                   src: u32, oldSize: u32, dst: u32, newSize: u32)
    requires 0 < oldSize < newSize && src + oldSize <= |d| < 0x1_0000_0000 && At(ms, src).Some?
    requires dst + newSize <= |d| && Free(ms, dst, dst + newSize)
    requires d' == Splice(d, dst, d[src..src + oldSize] + Zeros(newSize - oldSize))
    requires MovedVia(ms, full, ms', src, src + oldSize, dst, dst + newSize, At(ms, src).value)
    ensures Moved(ms, ms', d, d', src, oldSize, dst, newSize)
  {
  }

  ghost predicate KeepsMapped(ms: seq<Mapping>, d: seq<u8>, d': seq<u8>) {
    |d| == |d'| && forall a :: 0 <= a < |d| && At(ms, a).Some? ==> d'[a] == d[a]
  }

  lemma KeepsSelf(ms: seq<Mapping>, d: seq<u8>)
    ensures KeepsMapped(ms, d, d)
  {
  }

  /** Writing to a free range changes no mapped byte. */
  lemma FreeBytesOnly(ms: seq<Mapping>, d: seq<u8>, at: nat, bytes: seq<u8>)
    requires at + |bytes| <= |d| && Free(ms, at, at + |bytes|)
    ensures KeepsMapped(ms, d, Splice(d, at, bytes))
  {
    forall a | 0 <= a < |d| && At(ms, a).Some? ensures Splice(d, at, bytes)[a] == d[a] {
      if at <= a < at + |bytes| { FreeAt(ms, at, at + |bytes|, a); }
    }
  }

  lemma MoveSafeInsert(ms: seq<Mapping>, k: nat, m: Mapping, s: u32, e: u32)
    requires k <= |ms| && Sorted(Insert(ms, k, m)) && m.start < m.end && s < e
    requires At(ms, s).Some? && Free(ms, m.start, m.end)
    ensures Safe(Insert(ms, k, m), s, e) <==> MoveSafe(ms, s, e, m.start)
  {
    var full := Insert(ms, k, m);
    assert full[k] == m;
    if m.Has(s) { FreeAt(ms, m.start, m.end, s); }
    if MoveSafe(ms, s, e, m.start) {
      forall i | 0 <= i < |full| - 1 ensures !full[i].Splits(s, e) {
        if i < k { assert full[i] == ms[i]; } else if i > k { assert full[i] == ms[i - 1]; }
      }
    }
    if Safe(full, s, e) {
      forall i | 0 <= i < |ms| && ms[i].Splits(s, e) ensures i == |ms| - 1 && m.start < ms[i].start {
        if i < k { assert full[i] == ms[i]; } else { assert full[i + 1] == ms[i]; }
      }
    }
  }

  /** The addresses mapped as heap are exactly [lo, hi), all of them readable and writable. */
  ghost predicate HeapSpans(ms: seq<Mapping>, lo: int, hi: int) {
    && (forall a :: lo <= a < hi ==> At(ms, a) == Some(Perm(READ_WRITE, HEAP)))
    && (forall a :: a < lo || hi <= a ==> At(ms, a).Some? ==> At(ms, a).value.name != HEAP)
  }

  ghost predicate SameElsewhere(ms: seq<Mapping>, ms': seq<Mapping>, lo: int, hi: int) {
    forall a :: a < lo || hi <= a ==> At(ms', a) == At(ms, a)
  }

  /** Mapping anything else leaves the heap alone. */
  lemma HeapKeptByMapping(ms: seq<Mapping>, ms': seq<Mapping>, m: Mapping, lo: int, hi: int)
    requires HeapSpans(ms, lo, hi) && Free(ms, m.start, m.end) && Inserted(ms, ms', m) && m.name != HEAP
    ensures HeapSpans(ms', lo, hi)
  {
    InsertedAt(ms, ms', m);
    forall a | m.Has(a) ensures At(ms, a).None? { FreeAt(ms, m.start, m.end, a); }
  }

  lemma MappedKeepsHeap(ms: seq<Mapping>, ms': seq<Mapping>, d: seq<u8>, d': seq<u8>, m: Mapping, bytes: seq<u8>,
                        lo: int, hi: int)
    requires Sorted(ms) && Mapped(ms, ms', d, d', m, bytes) && m.name != HEAP
    ensures Sorted(ms')
    ensures HeapSpans(ms, lo, hi) ==> HeapSpans(ms', lo, hi)
  {
    if HeapSpans(ms, lo, hi) { HeapKeptByMapping(ms, ms', m, lo, hi); }
  }

  predicate NotHeap(p: Option<Perm>) { p.None? || p.value.name != HEAP }

  lemma HeapKeptByPoints(ms: seq<Mapping>, ms': seq<Mapping>, lo: int, hi: int)
    requires HeapSpans(ms, lo, hi)
    requires forall a :: At(ms', a) == At(ms, a) || (NotHeap(At(ms, a)) && NotHeap(At(ms', a)))
    ensures HeapSpans(ms', lo, hi)
  {
  }

  lemma HeapKeptByCut(ms: seq<Mapping>, s: u32, e: u32, lo: int, hi: int)
    requires Sorted(ms) && s < e && Safe(ms, s, e) && HeapSpans(ms, lo, hi)
    requires forall a :: s <= a < e ==> At(ms, a).None? || At(ms, a).value.name != HEAP
    ensures HeapSpans(Removed(ms, s, e), lo, hi)
  {
    RemoveExact(ms, s, e);
    hide Sorted, Safe, Removed;
    HeapKeptByPoints(ms, Removed(ms, s, e), lo, hi);
  }

  /** So does resizing a mapping that is not the heap, where the removals it makes are safe. */
  lemma HeapKeptByRemap(ms: seq<Mapping>, ms': seq<Mapping>, d: seq<u8>, d': seq<u8>,
                        oldAddr: u32, oldSize: u32, newSize: u32, flags: u32, at: u32, lo: int, hi: int)
    requires Sorted(ms) && oldAddr + oldSize <= |d| < 0x1_0000_0000 && At(ms, oldAddr).Some?
    requires Remapped(ms, ms', d, d', oldAddr, oldSize, newSize, flags, at)
    requires Uniform(ms, oldAddr, oldAddr + oldSize) && At(ms, oldAddr).value.name != HEAP && HeapSpans(ms, lo, hi)
    requires newSize < oldSize ==> Safe(ms, oldAddr + newSize, oldAddr + oldSize)
    requires oldSize < newSize && at != oldAddr ==> MoveSafe(ms, oldAddr, oldAddr + oldSize, at)
    ensures HeapSpans(ms', lo, hi)
  {
    hide Mapped, Moved, HeapSpans, Safe, MoveSafe, Sorted, Splice, Zeros;
    var p := At(ms, oldAddr).value;
    if newSize < oldSize {
      HeapKeptByCut(ms, oldAddr + newSize, oldAddr + oldSize, lo, hi);
    } else if oldSize < newSize && at == oldAddr {
      MappedKeepsHeap(ms, ms', d, d', Mapping(oldAddr + oldSize, oldAddr + newSize, p.prot, p.name),
                      Zeros(newSize - oldSize), lo, hi);
    } else if oldSize < newSize {
      HeapKeptByMove(ms, ms', d, d', oldAddr, oldSize, newSize, at, lo, hi);
    }
  }

  lemma HeapKeptByMove(ms: seq<Mapping>, ms': seq<Mapping>, d: seq<u8>, d': seq<u8>,
                       src: u32, oldSize: u32, newSize: u32, dst: u32, lo: int, hi: int)
    requires Sorted(ms) && Moved(ms, ms', d, d', src, oldSize, dst, newSize) && MoveSafe(ms, src, src + oldSize, dst)
    requires Uniform(ms, src, src + oldSize) && At(ms, src).value.name != HEAP && HeapSpans(ms, lo, hi)
    ensures HeapSpans(ms', lo, hi)
  {
    hide MovedVia, MoveSafe, Sorted, HeapSpans, Splice, Zeros;
    var p, s, e := At(ms, src).value, src, src + oldSize;
    var full :| MovedVia(ms, full, ms', s, e, dst, dst + newSize, p);
    MovedViaOpen(ms, full, ms', s, e, dst, dst + newSize, p);
    MovedViaExact(ms, full, s, e, Mapping(dst, dst + newSize, p.prot, p.name));
    forall a | dst <= a < dst + newSize ensures At(ms, a).None? { FreeAt(ms, dst, dst + newSize, a); }
    HeapKeptByPoints(ms, ms', lo, hi);
  }

  /** What moving the top of the heap does: no address and no byte outside the pages between the old and
      the new top changes, and added pages are zero. */
  ghost predicate Resized(ms: seq<Mapping>, ms': seq<Mapping>, d: seq<u8>, d': seq<u8>, oldTop: u32, newTop: u32) {
    && SameElsewhere(ms, ms', if oldTop < newTop then oldTop else newTop, if oldTop < newTop then newTop else oldTop)
    && if oldTop < newTop then newTop <= |d| && d' == Splice(d, oldTop, Zeros(newTop - oldTop)) else d' == d
  }

  lemma ResizedNot(ms: seq<Mapping>, d: seq<u8>, top: u32)
    ensures Resized(ms, ms, d, d, top, top)
  {
  }

  lemma BreakBounds(start: u32, brk: u32, requested: u32, heapEnd: u32, max: u32)
    requires 0 < start <= brk <= 0xffff_f000 && start % 0x1000 == 0 && start <= requested < Sub32(max, 0x1_0000)
    requires PageAlignUp(brk) <= max && PageAlignUp(brk) <= heapEnd && heapEnd % 0x1000 == 0
    ensures start <= PageAlignUp(brk) && start <= PageAlignUp(requested)
    ensures PageAlignUp(brk) < PageAlignUp(requested) ==> PageAlignUp(requested) <= max ==> requested <= 0xffff_f000
    ensures PageAlignUp(requested) <= PageAlignUp(brk) ==> requested <= 0xffff_f000
    ensures requested <= 0xffff_f000 ==>
              var end := if requested > heapEnd then PageAlignUp(requested) else heapEnd;
              PageAlignUp(requested) <= end && end % 0x1000 == 0
  {
    if requested <= heapEnd && requested <= 0xffff_f000 { PageAlignMonotone(requested, heapEnd); }
  }

  /** After a failure a tidy list is the same, and one with the mappings of lowest start first everywhere means
      the same. */
  lemma FailedKeeps(ms: seq<Mapping>, zs: seq<Mapping>)
    requires zs == ms || Sorting(ms, zs)
    ensures Tidy(ms) ==> zs == ms
    ensures LowestFirst(ms) ==> SamePermissions(ms, zs)
  {
    hide Tidy, Sorting, LowestFirst;
    if zs != ms {
      if Tidy(ms) { TidySort(ms, zs); }
      FailureKeepsPermissionsIff(ms, true);
      assert FailedList(ms, true, zs);
    }
  }

  /** A list in which a page of a repeated mapping was made read-only, protection on. */
  ghost predicate PageProtected(v: View) {
    v == View(Protected(RepeatedList(), 0x4000, 0x5000, 1), 0x1_0000, true)
  }

  lemma PageProtectedList(v: View)
    requires PageProtected(v)
    ensures v.max == 0x1_0000 && v.protected && Free(v.mappings, 0x8000, 0xa000) && !Free(v.mappings, 0x5000, 0x6000)
    ensures FirstAt(v.mappings, 0x4000) == Some(Mapping(0x4000, 0x5000, 1, "a"))
    ensures At(v.mappings, 0x4000) == Some(Perm(1, "a"))
  {
    hide Protected, RepeatedList;
    var once := ProtectedOnce();
    FirstAtIndex(once, 0x4000, 2);
    assert once[3].Overlaps(0x5000, 0x6000);
  }

  /** The failing case of mmap2: mapping another read-only page fails, and that page is writable again. */
  lemma MmapUndoesProtect(v: View, nextHint: u32, file: FileSource, zs: seq<Mapping>)
    requires PageProtected(v)
    requires FailedList(v.mappings, MapAdds(v, nextHint, 0x8000, 0x1000, MAP_ANONYMOUS, file), zs)
    ensures !HoleOk(v, nextHint, 0x8000, PageAlignUp(0x1000), 1)
    ensures At(v.mappings, 0x4000) == Some(Perm(1, "a")) && At(zs, 0x4000) == Some(Perm(3, "a"))
  {
    hide Protected, RepeatedList, Sorting, At, FirstAt, HoleFor;
    PageProtectedList(v);
    assert PageAlignUp(0x1000) == 0x1000;
    assert Fits(v.mappings, v.max, 0x8000, 0x1000);
    assert MapAdds(v, nextHint, 0x8000, 0x1000, MAP_ANONYMOUS, file);
    ResortUndoes(zs);
  }

  /** The same with mremap: enlarging that page, which has to move, fails and leaves it writable. */
  lemma MremapUndoesProtect(v: View, zs: seq<Mapping>)
    requires PageProtected(v)
    requires FailedList(v.mappings, RemapAdds(v, 0x8000, 0x4000, 0x1000, 0x2000, MREMAP_MAYMOVE, 0), zs)
    ensures At(v.mappings, 0x4000) == Some(Perm(1, "a")) && At(zs, 0x4000) == Some(Perm(3, "a"))
    ensures !Resizable(v, 0x8000, 0x4000, 0x1000, 0x2000, MREMAP_MAYMOVE, 0)
  {
    hide Protected, RepeatedList, Sorting, At, FirstAt, RemapAdds, Resizable, Free;
    PageProtectedList(v);
    PageMoves(v);
    ResortUndoes(zs);
  }

  /** A move of that page is attempted and refused. */
  lemma PageMoves(v: View)
    requires v.max == 0x1_0000 && v.protected && Free(v.mappings, 0x8000, 0xa000) && !Free(v.mappings, 0x5000, 0x6000)
    requires FirstAt(v.mappings, 0x4000) == Some(Mapping(0x4000, 0x5000, 1, "a"))
    ensures RemapAdds(v, 0x8000, 0x4000, 0x1000, 0x2000, MREMAP_MAYMOVE, 0) && At(v.mappings, 0x4000).Some?
    ensures !Resizable(v, 0x8000, 0x4000, 0x1000, 0x2000, MREMAP_MAYMOVE, 0)
  {
    hide FirstAt, Walk, Contiguous, Free, At, Relocatable, PageLength, Grants;
    PageReadable(v);
    PageRelocatable(v);
    TwoPages();
  }

  lemma TwoPages()
    ensures PageLength(0x1000) == Some(0x1000) && PageLength(0x2000) == Some(0x2000) && !Grants(1, PROT_WRITE)
    ensures HasFlag(MREMAP_MAYMOVE, MREMAP_MAYMOVE) && !HasFlag(MREMAP_MAYMOVE, MREMAP_FIXED)
  {
  }

  lemma PageRelocatable(v: View)
    requires v.max == 0x1_0000 && Free(v.mappings, 0x8000, 0xa000) && Walk(v.mappings, 0x4000, 0x5000, PROT_READ)
    ensures Relocatable(v, 0x8000, 0x4000, 0x1000, 0x2000, MREMAP_MAYMOVE, 0)
  {
    hide Scan, Walk, Free;
    TwoPages();
    assert Place(v.mappings, v.max, 0x8000, 0, 0x2000) == Some(0x8000);
  }

  lemma PageReadable(v: View)
    requires v.max == 0x1_0000 && FirstAt(v.mappings, 0x4000) == Some(Mapping(0x4000, 0x5000, 1, "a"))
    ensures Walk(v.mappings, 0x4000, 0x5000, PROT_READ) && Contiguous(v.mappings, 0x4000, 0x5000)
  {
    hide FirstAt;
    assert Walk(v.mappings, 0x5000, 0x5000, PROT_READ);
  }

  class MemoryKernel {
    const space: AddressSpace
    var brk: u32
    var heapStart: u32
    var heapEnd: u32

    ghost predicate Valid()
      reads this, space
    {
      space.Valid()
    }

    /** The addresses mapped as heap are exactly the pages from the start of the heap up to the
        break, all of them readable and writable. */
    ghost predicate HeapMapped()
      reads this, space
    {
      && 0 < heapStart <= brk && heapStart % 0x1000 == 0
      && brk <= 0xffff_f000 && PageAlignUp(brk) <= space.max
      && PageAlignUp(brk) <= heapEnd && heapEnd % 0x1000 == 0
      && Sorted(space.mappings)
      && HeapSpans(space.mappings, heapStart, PageAlignUp(brk))
    }

    constructor (space: AddressSpace, brk: u32)
      requires space.Valid() && Sorted(space.mappings)
      requires 0 < brk <= space.max && brk % 0x1000 == 0
      requires forall i :: 0 <= i < |space.mappings| ==> space.mappings[i].name != HEAP
      ensures Valid() && HeapMapped() && this.space == space && this.brk == brk
    {
      this.space := space;
      this.brk, heapStart, heapEnd := brk, brk, brk;
      new;
      forall a | At(space.mappings, a).Some? ensures At(space.mappings, a).value.name != HEAP {
        AtNone(space.mappings, a);
        var k :| 0 <= k < |space.mappings| && space.mappings[k].Has(a);
        AtMember(space.mappings, a, k);
      }
    }

    method Munmap(addr: u32, length: u32) returns (r: Result)
      modifies space`mappings
      ensures old(Valid()) ==> Valid()
      ensures r == Ok(0) || r == Err(EINVAL)
      ensures r.Ok? <==> PageLength(length).Some? && PageLength(length).value != 0 && addr % 0x1000 == 0
                         && addr + PageLength(length).value <= space.max
      ensures space.mappings == if r.Ok? then Removed(old(space.mappings), addr, addr + PageLength(length).value)
                                else old(space.mappings)
    {
      var size := PageLength(length);
      if size.None? || addr % 0x1000 != 0 { return Err(EINVAL); }
      var ok := space.Remove(addr, size.value);
      r := if ok then Ok(0) else Err(EINVAL);
    }

    /** Removes a mapping that has just been added, which leaves a sort of the list before. */
    method Unmap(ghost before: seq<Mapping>, m: Mapping)
      requires m.start < m.end <= space.max
      requires Free(before, m.start, m.end) && Sorting(before + [m], space.mappings)
      modifies space`mappings
      ensures old(Valid()) ==> Valid()
      ensures Sorting(before, space.mappings)
    {
      hide Sorting, Free, Removed;
      UndoSorts(before, m, space.mappings);
      var removed := space.Remove(m.start, m.end - m.start);
    }

    /** Maps a range and fills it, undoing the mapping when it cannot be written.  Once protection is
        on, that is whenever the new mapping is not writable. */
    method MapAndFill(at: u32, prot: bv8, name: string, bytes: seq<u8>) returns (r: Result)
      requires space.Sized() && |bytes| < 0x1_0000_0000
      modifies space`mappings, space`nextHint, space.data
      ensures old(Valid()) ==> Valid()
      ensures r.Ok? <==> old(Addable(space.mappings, space.max, space.nextHint, at, |bytes|))
                         && (space.protected ==> Grants(prot, PROT_WRITE))
      ensures r.Err? ==> r.errno == if old(Addable(space.mappings, space.max, space.nextHint, at, |bytes|)) then EFAULT
                                    else ENOMEM
      ensures r.Err? ==> space.data[..] == old(space.data[..])
      ensures r.Err? ==> FailedList(old(space.mappings),
                                    old(Addable(space.mappings, space.max, space.nextHint, at, |bytes|)),
                                    space.mappings)
      ensures r.Ok? ==> old(Place(space.mappings, space.max, space.nextHint, at, |bytes|)) == Some(r.value)
      ensures r.Ok? ==> r.value + |bytes| <= space.max
      ensures r.Ok? ==> Mapped(old(space.mappings), space.mappings, old(space.data[..]), space.data[..],
                               Mapping(r.value, r.value + |bytes|, prot, name), bytes)
    {
      hide Grants, Splice, Sorted, Tidy, Within, Sorting, Free, Inserted, HoleFor, Mapped;
      ghost var before, d := space.mappings, space.data[..];
      var mapped := space.MapAnonymous(at, |bytes|, prot, name);
      if mapped.None? { return Err(ENOMEM); }
      var m := Mapping(mapped.value, mapped.value + |bytes|, prot, name);
      FillableIff(space.Access(), before, m, |bytes|);
      var ok := space.WriteBytes(mapped.value, bytes);
      if !ok {
        Unmap(before, m);
        return Err(EFAULT);
      }
      MappedIntro(before, space.mappings, d, space.data[..], m, bytes);
      r := Ok(mapped.value);
    }

    /** Maps anonymous or file-backed memory, on any list.  An error with MAP_FIXED gives back the list and
        every byte, even when the removal it starts with has damaged the list in between.  Any other error
        keeps every byte, but where a mapping had been added the list stays sorted: every address keeps its
        permission if it already had that of the mappings of lowest start, and a tidy list is the same. */
    method Mmap2(addr: u32, length: u32, linuxProt: u32, flags: u32, file: FileSource) returns (r: Result)
      requires space.Sized()
      modifies space`mappings, space`nextHint, space.data
      ensures old(Valid()) ==> Valid()
      ensures r.Err? ==> space.data[..] == old(space.data[..])
      ensures r.Err? && HasFlag(flags, MAP_FIXED) ==> space.mappings == old(space.mappings)
      ensures r.Err? ==> FailedList(old(space.mappings),
                                    old(MapAdds(space.Access(), space.nextHint, addr, length, flags, file)),
                                    space.mappings)
      ensures r.Err? && (LowestFirst(old(space.mappings))
                         || !old(MapAdds(space.Access(), space.nextHint, addr, length, flags, file))) ==>
                SamePermissions(old(space.mappings), space.mappings)
      ensures r.Err? && Tidy(old(space.mappings)) ==> space.mappings == old(space.mappings)
      ensures r.Ok? ==>
                var size, fixed := PageAlignUp(length), HasFlag(flags, MAP_FIXED);
                && 0 < length <= 0x400_0000 && r.value + size <= space.max
                && (fixed ==> addr % 0x1000 == 0 && addr + size <= space.max)
                && (fixed && addr != 0 ==> r.value == addr)
                && (fixed && addr == 0 && 0x1000 <= old(space.nextHint) ==> 0x1000 <= r.value)
                && (!fixed && 0x1000 <= addr && addr % 0x1000 == 0
                    && Fits(old(space.mappings), space.max, addr, size) ==>
                      r.value == addr)
                && (HasFlag(flags, MAP_ANONYMOUS) || file.Contents?)
      ensures r.Ok? <==>
              && 0 < length <= 0x400_0000 && (HasFlag(flags, MAP_ANONYMOUS) || file.Contents?)
              && old(if HasFlag(flags, MAP_FIXED)
                     then FixedOk(space.Access(), space.nextHint, addr, PageAlignUp(length), ProtOf(linuxProt))
                     else HoleOk(space.Access(), space.nextHint, addr, PageAlignUp(length), linuxProt))
      ensures r.Ok? ==> HoldsFile(space.data[..], r.value, PageAlignUp(length), file, flags)
      ensures r.Ok? ==> AccessAsAsked(space.mappings, r.value, r.value + PageAlignUp(length), linuxProt)
      ensures r == Err(EINVAL) <==> length == 0 || length > 0x400_0000
      ensures r == Err(EBADF) <==> 0 < length <= 0x400_0000 && !HasFlag(flags, MAP_ANONYMOUS) && file.NotAFile?
      ensures r == Err(ENOMEM) <==>
              && 0 < length <= 0x400_0000 && (HasFlag(flags, MAP_ANONYMOUS) || file.Contents?)
              && old(NoRoom(space.Access(), space.nextHint, addr, PageAlignUp(length), HasFlag(flags, MAP_FIXED)))
      ensures r.Err? ==> r.errno in {EINVAL, EBADF, ENOMEM, EFAULT}
      ensures r.Ok? && HasFlag(flags, MAP_FIXED) ==>
                var size := PageAlignUp(length);
                Mapped(Removed(old(space.mappings), addr, addr + size), space.mappings, old(space.data[..]),
                       space.data[..],
                       Mapping(r.value, r.value + size, ProtOf(linuxProt), MMAP2), InitialBytes(file, flags, size))
      ensures r.Ok? && !HasFlag(flags, MAP_FIXED) ==>
                var size := PageAlignUp(length);
                Mapped(old(space.mappings), space.mappings, old(space.data[..]), space.data[..],
                       Mapping(r.value, r.value + size, ProtOf(linuxProt), MMAP2), InitialBytes(file, flags, size))
      ensures old(HeapMapped()) && !HasFlag(flags, MAP_FIXED) ==> HeapMapped()
    {
      hide Addable, FixedOk, Mapped, ProtOf, InitialBytes, Removed, HeapSpans, Sorted, Tidy, Within, Sorting, HoldsFile,
        AccessAsAsked, At;
      if length == 0 || length > 0x400_0000 { return Err(EINVAL); }
      var size := PageAlignUp(length);
      var fixed := HasFlag(flags, MAP_FIXED);
      if !HasFlag(flags, MAP_ANONYMOUS) {
        if file.NotAFile? { return Err(EBADF); }
        if file.ReadFailed? { return Err(EFAULT); }
      }
      var bytes := InitialBytes(file, flags, size);
      ProtOfBits(linuxProt);
      if fixed {
        ghost var ms, d := space.mappings, space.data[..];
        r := ReplaceFixed(addr, size, ProtOf(linuxProt), bytes);
        if r.Ok? {
          MappedGives(Removed(ms, addr, addr + size), space.mappings, d, space.data[..], r.value, size, linuxProt, file,
                      flags);
        }
      } else {
        var at := UsableHint(addr, size);
        ghost var ms, d := space.mappings, space.data[..];
        r := MapAndFill(at, ProtOf(linuxProt), MMAP2, bytes);
        assert MMAP2[0] != HEAP[0];
        if r.Ok? {
          var m := Mapping(r.value, r.value + size, ProtOf(linuxProt), MMAP2);
          MappedGives(ms, space.mappings, d, space.data[..], r.value, size, linuxProt, file, flags);
          if Sorted(ms) {
            MappedKeepsHeap(ms, space.mappings, d, space.data[..], m, bytes, heapStart, PageAlignUp(brk));
          }
        } else {
          if Sorted(ms) { SortedTidy(ms); }
          FailedKeeps(ms, space.mappings);
        }
      }
    }

    /** A hint is used only when it is aligned, in range and free; otherwise the kernel chooses. */
    method UsableHint(addr: u32, size: u32) returns (at: u32)
      ensures at == HintAt(space.mappings, space.max, addr, size)
    {
      if addr < 0x1000 || addr > space.max || size > space.max - addr || addr % 0x1000 != 0 { return 0; }
      var free := space.IsFree(addr, addr + size);
      at := if free then addr else 0;
    }

    /** The MAP_FIXED half of mmap2: removes, maps and fills, and puts the saved list and bytes back
        on failure. */
    method ReplaceFixed(addr: u32, size: u32, prot: bv8, bytes: seq<u8>) returns (r: Result)
      requires space.Sized() && 0 < size == |bytes|
      modifies space`mappings, space`nextHint, space.data
      ensures old(Valid()) ==> Valid()
      ensures r.Err? ==> space.mappings == old(space.mappings) && space.data[..] == old(space.data[..])
      ensures r.Ok? ==> addr % 0x1000 == 0 && addr + size <= space.max && r.value + size <= space.max
      ensures r.Ok? && addr != 0 ==> r.value == addr
      ensures r.Ok? && addr == 0 && 0x1000 <= old(space.nextHint) ==> 0x1000 <= r.value
      ensures r.Ok? <==> old(FixedOk(space.Access(), space.nextHint, addr, size, prot))
      ensures r == Err(ENOMEM) <==> old(NoRoom(space.Access(), space.nextHint, addr, size, true))
      ensures r.Err? ==> r.errno == ENOMEM || r.errno == EFAULT
      ensures r.Ok? ==> Mapped(Removed(old(space.mappings), addr, addr + size), space.mappings,
                               old(space.data[..]), space.data[..], Mapping(r.value, r.value + size, prot, MMAP2),
                               bytes)
    {
      hide Mapped, Splice, Grants, Removed, Walk, Tidy, Within, Sorted, HoleFor, Free, FailedList;
      if addr > space.max || size > space.max - addr || addr % 0x1000 != 0 { return Err(ENOMEM); }
      var saved := space.mappings;
      ghost var valid := Valid();
      var data := space.ReadBytes(addr, size);
      if data.None? { return Err(EFAULT); }
      var removed := space.Remove(addr, size);
      RemovedFree(saved, addr, addr + size);
      if addr == 0 && 0x1000 <= space.nextHint {
        HoleAbove(space.mappings, space.max, size, space.nextHint, space.nextHint);
      }
      r := MapAndFill(addr, prot, MMAP2, bytes);
      if r.Err? { Restore(saved, addr, data.value); }
    }

    /** Puts back a saved list and saved bytes; the bytes are the ones still there. */
    method Restore(saved: seq<Mapping>, addr: u32, bytes: seq<u8>)
      requires space.Sized()
      requires addr + |bytes| <= space.max && bytes == space.data[addr..addr + |bytes|]
      modifies space`mappings, space.data
      ensures space.mappings == saved && space.data[..] == old(space.data[..])
    {
      space.mappings := saved;
      var ok := space.WriteBytes(addr, bytes);
      assert space.data[..] == old(space.data[..]);
    }

    /** Resizes a mapping, on any list.  A failure keeps every byte, except that with the one length that
        rounds to 0 it may zero bytes that are not mapped.  Where no mapping had been added the list is as it
        was; otherwise it stays sorted, as for mmap2. */
    method Mremap(oldAddr: u32, oldLength: u32, newLength: u32, flags: u32, newAddr: u32) returns (r: Result)
      requires space.Sized()
      modifies space`mappings, space`nextHint, space.data
      ensures old(Valid()) ==> Valid()
      ensures r.Err? ==>
                FailedList(old(space.mappings),
                           old(RemapAdds(space.Access(), space.nextHint, oldAddr, oldLength, newLength, flags,
                                         newAddr)),
                           space.mappings)
      ensures r.Err? && (LowestFirst(old(space.mappings))
                         || !old(RemapAdds(space.Access(), space.nextHint, oldAddr, oldLength, newLength, flags,
                                           newAddr))) ==>
                SamePermissions(old(space.mappings), space.mappings)
      ensures r.Err? && Tidy(old(space.mappings)) ==> space.mappings == old(space.mappings)
      ensures r.Err? ==>
                space.data[..] == old(FailedBytes(space.Access(), space.nextHint, space.data[..], oldAddr, oldLength,
                                                  newLength, flags, newAddr))
      ensures r.Err? && oldLength != 0xffff_f001 ==> space.data[..] == old(space.data[..])
      ensures r.Err? ==> KeepsMapped(old(space.mappings), old(space.data[..]), space.data[..])
      ensures !old(Remappable(space.Access(), oldAddr, oldLength, newLength)) ==> r == Err(EINVAL)
      ensures r.Err? && old(Remappable(space.Access(), oldAddr, oldLength, newLength)) ==>
                && PageLength(oldLength).value < PageLength(newLength).value
                && (!HasFlag(flags, MREMAP_MAYMOVE) ==> r.errno == ENOMEM)
                && (HasFlag(flags, MREMAP_MAYMOVE)
                    && !Roomy(old(space.Access()), oldAddr + PageLength(oldLength).value,
                              oldAddr + PageLength(newLength).value) ==>
                      MoveRefused(old(space.Access()), old(space.nextHint), oldAddr, PageLength(oldLength).value,
                                  PageLength(newLength).value, flags, newAddr, r.errno))
      ensures r.Ok? ==> old(Remappable(space.Access(), oldAddr, oldLength, newLength))
      ensures r.Ok? <==>
              && old(Remappable(space.Access(), oldAddr, oldLength, newLength))
              && old(Resizable(space.Access(), space.nextHint, oldAddr, PageLength(oldLength).value,
                               PageLength(newLength).value, flags, newAddr))
      ensures r.Ok? && PageLength(oldLength).value < PageLength(newLength).value
              && Growable(old(space.Access()), oldAddr + PageLength(oldLength).value,
                          oldAddr + PageLength(newLength).value,
                          old(At(space.mappings, oldAddr)).value.prot)
              ==> r.value == oldAddr
      ensures r.Ok? && r.value != oldAddr ==>
                Place(old(space.mappings), space.max, old(space.nextHint), Target(flags, newAddr),
                      PageLength(newLength).value) == Some(r.value)
      ensures r.Ok? && r.value != oldAddr && Target(flags, newAddr) == 0 && 0x1000 <= old(space.nextHint) ==>
                0x1000 <= r.value
      ensures r.Ok? ==> Remapped(old(space.mappings), space.mappings, old(space.data[..]), space.data[..],
                                 oldAddr, PageLength(oldLength).value, PageLength(newLength).value, flags, r.value)
    {
      hide Remapped, Resizable, KeepsMapped, Place, Growable, MoveRefused, Roomy, Splice, Zeros, Tidy, Within,
        ResizeAdds, Sorting;
      KeepsSelf(space.mappings, space.data[..]);
      ghost var ms := space.mappings;
      var oldPages, newPages := PageLength(oldLength), PageLength(newLength);
      if oldPages.None? || newPages.None? || oldAddr % 0x1000 != 0 || oldAddr > space.max
         || oldPages.value > space.max - oldAddr {
        return Err(EINVAL);
      }
      PageLengthRounds(oldLength);
      var oldSize, newSize := oldPages.value, newPages.value;
      var found := space.MappingAt(oldAddr);
      if found.None? { return Err(EINVAL); }
      var covered := Covered(found.value, oldAddr + oldSize);
      if !covered { return Err(EINVAL); }
      r := Resize(oldAddr, oldSize, newSize, found.value, flags, newAddr);
      if r.Err? { FailedKeeps(ms, space.mappings); }
    }

    method Resize(oldAddr: u32, oldSize: u32, newSize: u32, mapping: Mapping, flags: u32, newAddr: u32)
      returns (r: Result)
      requires space.Sized() && oldAddr + oldSize <= space.max
      requires FirstAt(space.mappings, oldAddr) == Some(mapping)
      modifies space`mappings, space`nextHint, space.data
      ensures old(Valid()) ==> Valid()
      ensures r.Err? ==>
                FailedList(old(space.mappings),
                           old(ResizeAdds(space.Access(), space.nextHint, oldAddr, oldSize, newSize, flags, newAddr)),
                           space.mappings)
      ensures r.Err? ==>
                space.data[..] == old(ResizeFailed(space.Access(), space.nextHint, space.data[..], oldAddr, oldSize,
                                                   newSize, mapping.prot, flags, newAddr))
      ensures r.Err? ==> KeepsMapped(old(space.mappings), old(space.data[..]), space.data[..])
      ensures r.Ok? ==> Remapped(old(space.mappings), space.mappings, old(space.data[..]), space.data[..],
                                 oldAddr, oldSize, newSize, flags, r.value)
      ensures r.Ok? <==>
              old(Resizable(space.Access(), space.nextHint, oldAddr, oldSize, newSize, flags, newAddr))
      ensures r.Err? ==> oldSize < newSize
      ensures r.Err? && !HasFlag(flags, MREMAP_MAYMOVE) ==> r.errno == ENOMEM
      ensures r.Err? && HasFlag(flags, MREMAP_MAYMOVE)
              && !old(Roomy(space.Access(), oldAddr + oldSize, oldAddr + newSize)) ==>
                MoveRefused(old(space.Access()), old(space.nextHint), oldAddr, oldSize, newSize, flags, newAddr,
                            r.errno)
      ensures oldSize < newSize && old(Growable(space.Access(), oldAddr + oldSize, oldAddr + newSize, mapping.prot)) ==>
                r == Ok(oldAddr)
      ensures r.Ok? && r.value != oldAddr ==>
                Place(old(space.mappings), space.max, old(space.nextHint), Target(flags, newAddr), newSize)
                  == Some(r.value)
      ensures r.Ok? && r.value != oldAddr && Target(flags, newAddr) == 0 && 0x1000 <= old(space.nextHint) ==>
                0x1000 <= r.value
    {
      hide Mapped, Moved, Relocatable, Addable, Place, MoveRefused, Grants, Sorting, Splice, Zeros, KeepsMapped, Free,
        Removed,
        FirstAt, At, Tidy, Within;
      KeepsSelf(space.mappings, space.data[..]);
      if oldSize == newSize { return Ok(oldAddr); }
      if newSize < oldSize {
        var ok := space.Remove(oldAddr + newSize, oldSize - newSize);
        return if ok then Ok(oldAddr) else Err(EINVAL);
      }
      ghost var ms := space.mappings;
      var grown := GrowInPlace(oldAddr, oldSize, newSize, mapping);
      if grown { return Ok(oldAddr); }
      if !HasFlag(flags, MREMAP_MAYMOVE) { return Err(ENOMEM); }
      ghost var sorted := space.mappings;
      r := Move(oldAddr, oldSize, newSize, mapping, flags, newAddr);
      if sorted != ms && space.mappings != sorted { SortingTrans(ms, sorted, space.mappings); }
    }

    /** The old range is covered by consecutive mappings with the protection and name of the first. */
    method Covered(mapping: Mapping, oldEnd: u32) returns (covered: bool)
      ensures covered <==> Chain(space.mappings, mapping.end, oldEnd, Perm(mapping.prot, mapping.name))
      ensures Tidy(space.mappings) && mapping in space.mappings ==>
                (covered <==> Spans(space.mappings, mapping.end, oldEnd, Perm(mapping.prot, mapping.name)))
    {
      var coveredEnd := mapping.end;
      ghost var p := Perm(mapping.prot, mapping.name);
      if Tidy(space.mappings) && mapping in space.mappings { ChainSpans(space.mappings, mapping, oldEnd, p); }
      while coveredEnd < oldEnd
        invariant Chain(space.mappings, mapping.end, oldEnd, p) == Chain(space.mappings, coveredEnd, oldEnd, p)
      {
        var next := space.MappingAt(coveredEnd);
        if next.None? || next.value.start != coveredEnd || next.value.prot != mapping.prot
           || next.value.name != mapping.name {
          return false;
        }
        coveredEnd := next.value.end;
      }
      covered := true;
    }

    /** Tries to extend the old range over the pages that follow it, undoing the mapping when they
        cannot be zeroed. */
    method GrowInPlace(oldAddr: u32, oldSize: u32, newSize: u32, mapping: Mapping) returns (grown: bool)
      requires space.Sized() && oldAddr + oldSize <= space.max && oldSize < newSize
      modifies space`mappings, space.data
      ensures old(Valid()) ==> Valid()
      ensures grown <==> old(Growable(space.Access(), oldAddr + oldSize, oldAddr + newSize, mapping.prot))
      ensures !grown ==> space.data[..] == old(space.data[..])
      ensures !grown ==> FailedList(old(space.mappings),
                                    old(Roomy(space.Access(), oldAddr + oldSize, oldAddr + newSize)), space.mappings)
      ensures grown ==> Mapped(old(space.mappings), space.mappings, old(space.data[..]), space.data[..],
                               Mapping(oldAddr + oldSize, oldAddr + newSize, mapping.prot, mapping.name),
                               Zeros(newSize - oldSize))
    {
      hide Grants, Splice, Sorted, Tidy, Within, Inserted, Sorting, Free, Mapped;
      var oldEnd, newEnd := oldAddr + oldSize, Add32(oldAddr, newSize);
      if newEnd < oldEnd || newEnd > space.max { return false; }
      var free := space.IsFree(oldEnd, newEnd);
      if !free { return false; }
      ghost var before, d := space.mappings, space.data[..];
      var added := space.Add(oldEnd, newSize - oldSize, mapping.prot, mapping.name);
      if !added { return false; }
      var m := Mapping(oldEnd, newEnd, mapping.prot, mapping.name);
      FillableIff(space.Access(), before, m, newSize - oldSize);
      grown := space.WriteBytes(oldEnd, Zeros(newSize - oldSize));
      if !grown {
        Unmap(before, m);
      } else {
        MappedIntro(before, space.mappings, d, space.data[..], m, Zeros(newSize - oldSize));
      }
    }

    /** Moves the old range to a fresh one. */
    method Move(oldAddr: u32, oldSize: u32, newSize: u32, mapping: Mapping, flags: u32, newAddr: u32)
      returns (r: Result)
      requires space.Sized() && oldAddr + oldSize <= space.max && oldSize < newSize
      requires FirstAt(space.mappings, oldAddr) == Some(mapping)
               || (space.protected && !Grants(mapping.prot, PROT_WRITE))
      modifies space`mappings, space`nextHint, space.data
      ensures old(Valid()) ==> Valid()
      ensures r.Err? ==>
                MoveRefused(old(space.Access()), old(space.nextHint), oldAddr, oldSize, newSize, flags, newAddr,
                            r.errno)
      ensures r.Ok? <==> oldSize != 0
                         && old(Movable(space.Access(), space.nextHint, oldAddr, oldSize, newSize, mapping.prot, flags,
                                        newAddr))
      ensures r.Err? ==>
                FailedList(old(space.mappings),
                           old(Relocatable(space.Access(), space.nextHint, oldAddr, oldSize, newSize, flags, newAddr)),
                           space.mappings)
      ensures r.Err? && !(oldSize == 0
                          && old(Movable(space.Access(), space.nextHint, oldAddr, oldSize, newSize, mapping.prot, flags,
                                         newAddr))) ==>
                space.data[..] == old(space.data[..])
      ensures oldSize == 0
              && old(Movable(space.Access(), space.nextHint, oldAddr, oldSize, newSize, mapping.prot, flags,
                             newAddr)) ==>
                var at := Place(old(space.mappings), space.max, old(space.nextHint), Target(flags, newAddr), newSize);
                at.Some? && at.value + newSize <= space.max
                  && space.data[..] == Splice(old(space.data[..]), at.value, Zeros(newSize))
      ensures r.Err? ==> KeepsMapped(old(space.mappings), old(space.data[..]), space.data[..])
      ensures r.Ok? ==> r.value != oldAddr
      ensures r.Ok? ==> Moved(old(space.mappings), space.mappings, old(space.data[..]), space.data[..],
                              oldAddr, oldSize, r.value, newSize)
      ensures r.Ok? ==>
                Place(old(space.mappings), space.max, old(space.nextHint), Target(flags, newAddr), newSize)
                == Some(r.value)
      ensures r.Ok? && Target(flags, newAddr) == 0 && 0x1000 <= old(space.nextHint) ==> 0x1000 <= r.value
    {
      hide Addable, Moved, KeepsMapped, Grants, Mapped, Fits, HoleFor, Sorting, Tidy, Within, Walk;
      KeepsSelf(space.mappings, space.data[..]);
      var oldData := space.ReadBytes(oldAddr, oldSize);
      if oldData.None? { return Err(EFAULT); }
      var target := ChooseTarget(HasFlag(flags, MREMAP_FIXED), newAddr, newSize);
      if target.None? { return Err(EINVAL); }
      ghost var ms, d := space.mappings, space.data[..];
      if 0x1000 <= space.nextHint { HoleAbove(ms, space.max, newSize, space.nextHint, space.nextHint); }
      r := MapAndFill(target.value, mapping.prot, mapping.name, Zeros(newSize));
      if r.Err? { return; }
      MappedFresh(ms, space.mappings, d, space.data[..],
                  Mapping(r.value, r.value + newSize, mapping.prot, mapping.name),
                  Zeros(newSize), oldAddr);
      r := FinishMove(ms, d, oldAddr, oldSize, r.value, newSize, mapping, oldData.value);
    }

    /** Where to move to: the fixed address, which must be aligned and free, or 0 for any. */
    method ChooseTarget(fixed: bool, newAddr: u32, newSize: u32) returns (target: Option<u32>)
      ensures target.Some? <==> (fixed ==> newAddr % 0x1000 == 0 && Fits(space.mappings, space.max, newAddr, newSize))
      ensures target.Some? ==> target.value == if fixed then newAddr else 0
    {
      if !fixed { return Some(0); }
      if newAddr % 0x1000 != 0 || newAddr > space.max || newSize > space.max - newAddr { return None; }
      var free := space.IsFree(newAddr, newAddr + newSize);
      target := if free then Some(newAddr) else None;
    }

    /** Copies the old bytes into the new mapping and removes the old range. */
    method FinishMove(ghost ms: seq<Mapping>, ghost d: seq<u8>, oldAddr: u32, oldSize: u32, dst: u32, newSize: u32,
                      mapping: Mapping, oldData: seq<u8>) returns (r: Result)
      requires space.Sized() && oldSize < newSize && At(ms, oldAddr) == Some(Perm(mapping.prot, mapping.name))
      requires |d| == space.max && oldAddr + oldSize <= |d| && oldData == d[oldAddr..oldAddr + oldSize]
      requires dst + newSize <= space.max && (space.protected ==> Grants(mapping.prot, PROT_WRITE))
      requires Mapped(ms, space.mappings, d, space.data[..],
                      Mapping(dst, dst + newSize, mapping.prot, mapping.name), Zeros(newSize))
      modifies space`mappings, space.data
      ensures old(Valid()) ==> Valid()
      ensures r.Err? <==> oldSize == 0
      ensures r.Err? ==> r.errno == EFAULT
      ensures r.Err? ==> Sorting(ms, space.mappings) && space.data[..] == Splice(d, dst, Zeros(newSize))
      ensures r.Err? ==> KeepsMapped(ms, d, space.data[..])
      ensures r.Ok? ==> r.value == dst && Moved(ms, space.mappings, d, space.data[..], oldAddr, oldSize, dst, newSize)
    {
      hide Grants, KeepsMapped, Moved, Splice, Inserted, Zeros, Sorted, Free, Sorting, Tidy, Within, Removed;
      ghost var full := space.mappings;
      var m := Mapping(dst, dst + newSize, mapping.prot, mapping.name);
      ghost var bytes := oldData + Zeros(newSize - oldSize);
      WriteFront(dst, oldData, newSize, d, ms, m);
      var ok := space.Remove(oldAddr, oldSize);
      if !ok {
        FreeBytesOnly(ms, d, dst, bytes);
        Unmap(ms, m);
        return Err(EFAULT);
      }
      MovedIntro(ms, full, space.mappings, d, space.data[..], oldAddr, oldSize, dst, newSize);
      r := Ok(dst);
    }

    /** Writing to the front of a mapping that has just been zeroed succeeds. */
    method WriteFront(at: u32, bytes: seq<u8>, size: u32, ghost d: seq<u8>, ghost ms: seq<Mapping>, ghost m: Mapping)
      requires space.Sized() && m.start == at && m.end == at + size <= space.max && |bytes| <= size
      requires Sorting(ms + [m], space.mappings) && Free(ms, m.start, m.end)
      requires space.protected ==> Grants(m.prot, PROT_WRITE)
      requires |d| == space.max && space.data[..] == Splice(d, at, Zeros(size))
      modifies space.data
      ensures space.data[..] == Splice(d, at, bytes + Zeros(size - |bytes|))
    {
      hide Sorting, Free, Walk, Splice, Zeros;
      FillableIff(space.Access(), ms, m, |bytes|);
      SpliceTwice(d, at, bytes, size);
      var ok := space.WriteBytes(at, bytes);
    }

    // -------------------------------------------------------------- brk

    /** A break request that is granted: it lies between the start of the heap and the limit, and
        the pages it adds, if any, are in range and free. */
    ghost predicate BreakGranted(requested: u32)
      reads this, space
    {
      && 0 < heapStart <= requested < Sub32(space.max, 0x1_0000)
      && (PageAlignUp(brk) < PageAlignUp(requested) ==>
            PageAlignUp(requested) <= space.max && Free(space.mappings, PageAlignUp(brk), PageAlignUp(requested)))
    }

    /** Moves the break.  The heap keeps covering exactly the pages up to the break, growth is zeroed
        even over pages that were given up before, and a refused request changes nothing. */
    method Brk(requested: u32) returns (r: Result)
      requires Valid() && HeapMapped()
      modifies this`brk, this`heapEnd, space`mappings, space`nextHint, space.data
      ensures Valid() && HeapMapped()
      ensures old(BreakGranted(requested)) ==> r == Ok(requested) && brk == requested
      ensures !old(BreakGranted(requested)) ==>
                && r == (if requested < heapStart then Ok(brk)
                         else Err(if requested >= Sub32(space.max, 0x1_0000) then EFAULT else ENOMEM))
                && brk == old(brk) && heapEnd == old(heapEnd)
                && space.mappings == old(space.mappings) && space.data[..] == old(space.data[..])
      ensures Resized(old(space.mappings), space.mappings, old(space.data[..]), space.data[..], PageAlignUp(old(brk)),
                      PageAlignUp(brk))
    {
      hide Sorted, Free, HeapSpans, Resized;
      ResizedNot(space.mappings, space.data[..], PageAlignUp(brk));
      if requested == 0 || requested < heapStart { return Ok(brk); }
      if requested >= Sub32(space.max, 0x1_0000) { return Err(EFAULT); }
      var oldPages, newPages := PageAlignUp(brk), PageAlignUp(requested);
      BreakBounds(heapStart, brk, requested, heapEnd, space.max);
      var ok := ResizeHeap(heapStart, oldPages, newPages);
      if !ok { return Err(ENOMEM); }
      brk := requested;
      if requested > heapEnd { heapEnd := PageAlignUp(requested); }
      r := Ok(brk);
    }

    /** Grows or shrinks the heap to a new top. */
    method ResizeHeap(ghost start: u32, oldTop: u32, newTop: u32) returns (ok: bool)
      requires Valid() && 0 < start <= oldTop <= space.max && start <= newTop && Sorted(space.mappings)
      requires HeapSpans(space.mappings, start, oldTop) && oldTop <= heapEnd
      modifies space`mappings, space`nextHint, space.data
      ensures Valid() && Sorted(space.mappings)
      ensures ok <==> (oldTop < newTop ==> newTop <= space.max && Free(old(space.mappings), oldTop, newTop))
      ensures !ok ==> space.mappings == old(space.mappings) && space.data[..] == old(space.data[..])
      ensures ok ==> HeapSpans(space.mappings, start, newTop)
      ensures ok ==> Resized(old(space.mappings), space.mappings, old(space.data[..]), space.data[..], oldTop, newTop)
    {
      if newTop > oldTop {
        ok := GrowHeap(start, oldTop, newTop);
      } else {
        if newTop < oldTop && heapEnd >= oldTop { ShrinkHeap(start, newTop, oldTop); }
        ok := true;
      }
    }

    /** Maps and zeroes new heap pages.  Zeroing cannot fail: the pages have just been mapped writable. */
    method GrowHeap(ghost start: u32, oldTop: u32, newTop: u32) returns (grown: bool)
      requires Valid() && start <= oldTop && 0 < oldTop < newTop && Sorted(space.mappings)
      requires HeapSpans(space.mappings, start, oldTop)
      modifies space`mappings, space`nextHint, space.data
      ensures Valid() && Sorted(space.mappings)
      ensures grown <==> newTop <= space.max && Free(old(space.mappings), oldTop, newTop)
      ensures !grown ==> space.mappings == old(space.mappings) && space.data[..] == old(space.data[..])
      ensures grown ==> HeapSpans(space.mappings, start, newTop)
      ensures grown ==> SameElsewhere(old(space.mappings), space.mappings, oldTop, newTop)
      ensures grown ==> space.data[..] == Splice(old(space.data[..]), oldTop, Zeros(newTop - oldTop))
    {
      ghost var before := space.mappings;
      var mapped := space.MapAnonymous(oldTop, newTop - oldTop, READ_WRITE, HEAP);
      if mapped.None? { return false; }
      ghost var m := Mapping(oldTop, newTop, READ_WRITE, HEAP);
      InsertedAt(before, space.mappings, m);
      FillableIff(space.Access(), before, m, newTop - oldTop);
      assert Grants(READ_WRITE, PROT_WRITE);
      grown := space.WriteBytes(oldTop, Zeros(newTop - oldTop));
    }

    /** Unmaps heap pages from the top.  No mapping reaches past the top of the heap, so the removal
        splits none. */
    method ShrinkHeap(ghost start: u32, newTop: u32, oldTop: u32)
      requires Valid() && start <= newTop < oldTop <= space.max && Sorted(space.mappings)
      requires HeapSpans(space.mappings, start, oldTop)
      modifies space`mappings
      ensures Valid() && Sorted(space.mappings)
      ensures HeapSpans(space.mappings, start, newTop)
      ensures SameElsewhere(old(space.mappings), space.mappings, newTop, oldTop)
    {
      ghost var ms := space.mappings;
      forall i | 0 <= i < |ms| - 1 ensures !ms[i].Splits(newTop, oldTop) {
        if ms[i].Splits(newTop, oldTop) {
          AtMember(ms, newTop, i);
          AtMember(ms, oldTop, i);
        }
      }
      RemovedAt(ms, newTop, oldTop);
      var ok := space.Remove(newTop, oldTop - newTop);
    }
  }
}
