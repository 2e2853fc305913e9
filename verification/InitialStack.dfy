/** The initial process stack (System V i386 psABI, section 2.3) and the reader that takes argument
    and environment vectors back out of guest memory. */
module InitialStack {
  import opened Words
  import opened Bytes
  import opened AddressSpaces
  import opened GuestWords

  type Text = seq<u8>

  datatype Aux = Aux(key: u32, val: u32)

  const AT_EXECFN: nat := 31
  const VECTOR_LIMIT: nat := 4096
  const STRING_LIMIT: u32 := 0x10_0000

  // ---------------------------------------------------------------- byte images

  /** The strings one after the other, each with its NUL. */
  function Packed(values: seq<Text>): seq<u8> {
    if values == [] then [] else values[0] + [0] + Packed(values[1..])
  }

  /** Where each string lies when the strings are packed below `top`. */
  function Pointers(values: seq<Text>, top: u32): (ps: seq<u32>)
    requires |Packed(values)| <= top
    ensures |ps| == |values|
  {
    if values == [] then [] else [top - |Packed(values)|] + Pointers(values[1..], top)
  }

  lemma {:induction false} PointerAt(values: seq<Text>, top: u32, i: nat)
    requires i < |values| && |Packed(values)| <= top
    ensures |Packed(values[i..])| <= |Packed(values)|
    ensures Pointers(values, top)[i] == top - |Packed(values[i..])|
  {
    if i == 0 { assert values[0..] == values; } else {
      PointerAt(values[1..], top, i - 1);
      assert values[1..][i - 1..] == values[i..];
    }
  }

  lemma {:induction false} PackedTail(values: seq<Text>, i: nat)
    requires i <= |values|
    ensures |Packed(values[i..])| <= |Packed(values)|
    ensures Packed(values)[|Packed(values)| - |Packed(values[i..])|..] == Packed(values[i..])
  {
    if i == 0 {
      assert values[0..] == values;
    } else {
      PackedTail(values[1..], i - 1);
      assert values[1..][i - 1..] == values[i..];
      var p, q := Packed(values), Packed(values[1..]);
      assert p[|p| - |q|..] == q;
      assert p[|p| - |Packed(values[i..])|..] == q[|q| - |Packed(values[i..])|..];
    }
  }

  /** The words of the stack: count, arguments, zero, environment, zero, auxiliary pairs, zero pair. */
  function StackWords(argv: seq<u32>, envp: seq<u32>, auxv: seq<Aux>): (ws: seq<u32>)
    requires |argv| < 0x1_0000_0000
    ensures |ws| == 5 + |argv| + |envp| + 2 * |auxv|
  {
    [|argv|] + argv + [0] + envp + [0] + AuxWords(auxv) + [0, 0]
  }

  function AuxWords(auxv: seq<Aux>): (ws: seq<u32>)
    ensures |ws| == 2 * |auxv|
    ensures forall i :: 0 <= i < |auxv| ==> ws[2 * i] == auxv[i].key && ws[2 * i + 1] == auxv[i].val
  {
    if auxv == [] then [] else [auxv[0].key, auxv[0].val] + AuxWords(auxv[1..])
  }

  /** AT_EXECFN points at the first argument. */
  function WithExecFn(auxv: seq<Aux>, argv0: u32): (r: seq<Aux>)
    ensures |r| == |auxv|
    ensures forall i :: 0 <= i < |auxv| ==> r[i] == if auxv[i].key == AT_EXECFN then auxv[i].(val := argv0) else auxv[i]
  {
    seq(|auxv|, i requires 0 <= i < |auxv| => if auxv[i].key == AT_EXECFN then auxv[i].(val := argv0) else auxv[i])
  }

  /** An empty argument list is replaced by the program's own name. */
  function Arguments(argv: seq<Text>): (r: seq<Text>)
    ensures r != [] && (argv != [] ==> r == argv)
    ensures argv == [] ==> |r| == 1 && |r[0]| == 6 && forall i :: 0 <= i < 6 ==> r[0][i] as char == "ish-go"[i]
  {
    if argv == [] then [[105, 115, 104, 45, 103, 111]] else argv  // "ish-go"
  }

  /** How many words the stack holds. */
  function WordCount(argv: seq<Text>, envp: seq<Text>, auxv: seq<Aux>): nat {
    5 + |argv| + |envp| + 2 * |auxv|
  }

  // ---------------------------------------------------------------- writing

  lemma PackedStep(values: seq<Text>, i: nat, top: u32)
    requires i < |values|
    ensures Packed(values[i..]) == values[i] + [0] + Packed(values[i + 1..])
    ensures |Packed(values[i..])| <= top ==>
            Pointers(values[i..], top) == [top - |Packed(values[i..])|] + Pointers(values[i + 1..], top)
    ensures |Packed(values[i..])| <= |Packed(values)|
  {
    assert values[i..][1..] == values[i + 1..];
    PackedTail(values, i);
  }

  lemma PushedBelow(d0: seq<u8>, d: seq<u8>, d': seq<u8>, sp: nat, b: seq<u8>, above: seq<u8>)
    requires sp + |b| + |above| <= |d0| && d == Splice(d0, sp + |b|, above) && d' == Splice(d, sp, b)
    ensures d' == Splice(d0, sp, b + above)
  {
    SpliceAdjacent(d0, sp, b, above);
  }

  /** Copies one string and its NUL below `sp`. */
  method PushString(space: AddressSpace, sp: u32, value: Text, ghost d0: seq<u8>, ghost above: seq<u8>)
    returns (at: Option<u32>)
    requires space.Sized() && |value| < 0xffff_ffff && |d0| == space.max
    requires sp + |above| <= space.max ==> space.data[..] == Splice(d0, sp, above)
    modifies space.data
    ensures at.Some? ==> at.value == sp - |value| - 1 && sp <= space.max
    ensures at.Some? && sp + |above| <= space.max ==> space.data[..] == Splice(d0, at.value, value + [0] + above)
    ensures !space.protected && |value| < sp <= space.max ==> at.Some?
  {
    hide Splice;
    var b := value + [0];
    if |b| > sp { return None; }
    ghost var d := space.data[..];
    var ok := space.WriteBytes(sp - |b|, b);
    if !ok { return None; }
    if sp + |above| <= space.max { PushedBelow(d0, d, space.data[..], sp - |b|, b, above); }
    at := Some(sp - |b|);
  }

  /** Copies the strings below `top`, the last one highest. */
  method PushStrings(space: AddressSpace, top: u32, values: seq<Text>) returns (ptrs: Option<seq<u32>>)
    requires space.Sized() && forall i :: 0 <= i < |values| ==> |values[i]| < 0xffff_ffff
    modifies space.data
    ensures ptrs.Some? ==> |Packed(values)| <= top && ptrs.value == Pointers(values, top)
    ensures ptrs.Some? && values != [] ==> top <= space.max
    ensures ptrs.Some? && top <= space.max ==>
              space.data[..] == Splice(old(space.data[..]), top - |Packed(values)|, Packed(values))
    ensures !space.protected && |Packed(values)| <= top <= space.max ==> ptrs.Some?
  {
    var out: seq<u32> := [];
    var sp := top;
    ghost var d0, packed := space.data[..], [];
    assert values[|values|..] == [];
    for i := |values| downto 0
      invariant packed == Packed(values[i..]) && sp == top - |packed|
      invariant i < |values| ==> top <= space.max
      invariant out == Pointers(values[i..], top)
      invariant top <= space.max ==> space.data[..] == Splice(d0, sp, packed)
    {
      PackedStep(values, i, top);
      var at := PushString(space, sp, values[i], d0, packed);
      if at.None? { return None; }
      sp, out, packed := at.value, [at.value] + out, values[i] + [0] + packed;
    }
    ptrs := Some(out);
  }

  /** The lowest string pointer, or `top` when there is none. */
  method Lowest(top: u32, ptrs: seq<u32>) returns (sp: u32)
    ensures sp <= top && (sp == top || sp in ptrs)
    ensures forall i :: 0 <= i < |ptrs| ==> sp <= ptrs[i]
  {
    sp := top;
    for k := 0 to |ptrs|
      invariant sp <= top && (sp == top || sp in ptrs)
      invariant forall i :: 0 <= i < k ==> sp <= ptrs[i]
    {
      if ptrs[k] < sp { sp := ptrs[k]; }
    }
  }

  lemma LowestIsFirst(values: seq<Text>, top: u32, ptrs: seq<u32>, sp: u32)
    requires |Packed(values)| <= top && ptrs == Pointers(values, top)
    requires sp <= top && (sp == top || sp in ptrs) && forall i :: 0 <= i < |ptrs| ==> sp <= ptrs[i]
    ensures sp == top - |Packed(values)|
  {
    if values != [] {
      assert ptrs[0] == top - |Packed(values)|;
      forall i | 0 <= i < |values| ensures ptrs[0] <= ptrs[i] {
        PointerAt(values, top, i);
        PackedTail(values, i);
      }
    }
  }

  /** The image of a new stack below `top`: the argument strings, below them the environment
      strings, below those and aligned to 16 the words, and nothing else changed. */
  ghost predicate StackBuilt(d0: seq<u8>, d: seq<u8>, top: u32, sp: u32, argv: seq<Text>, envp: seq<Text>,
                             auxv: seq<Aux>)
    requires argv != []
  {
    var low := top - |Packed(argv)| - |Packed(envp)|;
    && 0 <= low && top <= |d0|
    && sp == low - low % 16 - 4 * WordCount(argv, envp, auxv)
    && |argv| < 0x1_0000_0000
    && var a, e := Pointers(argv, top), Pointers(envp, top - |Packed(argv)|);
    d == Splice(Splice(d0, low, Packed(envp) + Packed(argv)), sp, Encode(StackWords(a, e, WithExecFn(auxv, a[0]))))
  }

  lemma NoWrap(aligned: u32, n: nat, sp: u32)
    requires sp == Sub32(aligned, n) && sp + n < 0x1_0000_0000
    ensures sp == aligned - n
  {
    var k := (aligned - n) / 0x1_0000_0000;
    assert aligned - n == k * 0x1_0000_0000 + sp;
  }

  lemma {:induction false} PackedLength(values: seq<Text>)
    ensures |values| <= |Packed(values)|
  {
    if values != [] { PackedLength(values[1..]); }
  }

  /** Both string areas, the environment below the arguments. */
  method PushVectors(space: AddressSpace, top: u32, argv: seq<Text>, envp: seq<Text>)
    returns (ok: bool, argvPtrs: seq<u32>, envPtrs: seq<u32>, low: u32)
    requires space.Sized() && argv != []
    requires forall i :: 0 <= i < |argv| ==> |argv[i]| < 0xffff_ffff
    requires forall i :: 0 <= i < |envp| ==> |envp[i]| < 0xffff_ffff
    modifies space.data
    ensures ok ==> low == top - |Packed(argv)| - |Packed(envp)| && top <= space.max
    ensures ok ==> argvPtrs == Pointers(argv, top) && envPtrs == Pointers(envp, top - |Packed(argv)|)
    ensures ok ==> space.data[..] == Splice(old(space.data[..]), low, Packed(envp) + Packed(argv))
    ensures !space.protected && |Packed(argv)| + |Packed(envp)| <= top <= space.max ==> ok
  {
    hide Splice, Packed, Pointers;
    ghost var d0 := space.data[..];
    var pushed := PushStrings(space, top, argv);
    if pushed.None? { return false, [], [], 0; }
    argvPtrs := pushed.value;
    var sp := Lowest(top, argvPtrs);
    LowestIsFirst(argv, top, argvPtrs, sp);
    pushed := PushStrings(space, sp, envp);
    if pushed.None? { return false, [], [], 0; }
    envPtrs := pushed.value;
    low := Lowest(sp, envPtrs);
    LowestIsFirst(envp, sp, envPtrs, low);
    SpliceAdjacent(d0, low, Packed(envp), Packed(argv));
    ok := true;
  }

  method PushInitialStack(space: AddressSpace, top: u32, args: seq<Text>, envp: seq<Text>, auxv: seq<Aux>)
    returns (stack: Option<u32>)
    requires space.Sized()
    requires forall i :: 0 <= i < |args| ==> |args[i]| < 0xffff_ffff
    requires forall i :: 0 <= i < |envp| ==> |envp[i]| < 0xffff_ffff
    modifies space.data
    ensures stack.Some? ==>
            StackBuilt(old(space.data[..]), space.data[..], top, stack.value, Arguments(args), envp, auxv)
    ensures stack.Some? ==>
              var end := stack.value + 4 * (5 + |Arguments(args)| + |envp| + 2 * |auxv|);
              end % 16 == 0 && end <= top - |Packed(Arguments(args))| - |Packed(envp)| < end + 16
    ensures !space.protected && top <= space.max && Fits(top, Arguments(args), envp, auxv) ==> stack.Some?
  {
    hide Splice, Encode, Packed, Pointers;
    var argv := Arguments(args);
    var ok, argvPtrs, envPtrs, low := PushVectors(space, top, argv, envp);
    if !ok { return None; }
    PackedLength(argv);
    var words := StackWords(argvPtrs, envPtrs, WithExecFn(auxv, argvPtrs[0]));
    stack := PlaceWords(space, low, words);
  }

  /** The aligned word block below `low`. */
  method PlaceWords(space: AddressSpace, low: u32, words: seq<u32>) returns (stack: Option<u32>)
    requires space.Sized() && words != []
    modifies space.data
    ensures stack.Some? ==>
              && stack.value == low - low % 16 - 4 * |words|
              && stack.value + 4 * |words| <= space.max
              && space.data[..] == Splice(old(space.data[..]), stack.value, Encode(words))
    ensures !space.protected && low <= space.max && 4 * |words| <= low - low % 16 ==> stack.Some?
  {
    var aligned := low - low % 16;
    var sp := Sub32(aligned, 4 * |words|);
    var ok := WriteWords(space, sp, words);
    if !ok { return None; }
    NoWrap(aligned, 4 * |words|, sp);
    stack := Some(sp);
  }

  /** Strings and words fit between 0 and `top`. */
  predicate Fits(top: u32, argv: seq<Text>, envp: seq<Text>, auxv: seq<Aux>) {
    var low := top - |Packed(argv)| - |Packed(envp)|;
    0 <= low && 4 * WordCount(argv, envp, auxv) <= low - low % 16
  }

  // ---------------------------------------------------------------- reading a vector back

  /** Entry `i` of the vector at `addr` is a pointer, not null, to the string `s`. */
  ghost predicate EntryAt(v: View, d: seq<u8>, addr: u32, i: nat, s: Text) {
    var a := Add32(addr, 4 * i);
    a + 4 <= |d| && v.Permits(a, 4, PROT_READ) && Get32(d, a) != 0 && StringAt(v, d, Get32(d, a), STRING_LIMIT, s)
  }

  ghost predicate EntriesAt(v: View, d: seq<u8>, addr: u32, strs: seq<Text>) {
    forall i :: 0 <= i < |strs| ==> EntryAt(v, d, addr, i, strs[i])
  }

  /** A null-terminated vector of string pointers, within the reader's limits. */
  ghost predicate VectorAt(v: View, d: seq<u8>, addr: u32, strs: seq<Text>) {
    |strs| < VECTOR_LIMIT && EntriesAt(v, d, addr, strs) && WordIs(v, d, Add32(addr, 4 * |strs|), 0)
  }

  lemma StringUnique(v: View, d: seq<u8>, a: u32, limit: u32, s: Text, t: Text)
    requires StringAt(v, d, a, limit, s) && StringAt(v, d, a, limit, t)
    ensures s == t
  {
    assert forall k :: a <= k < a + |s| ==> d[k] in d[a..a + |s|];
    assert forall k :: a <= k < a + |t| ==> d[k] in d[a..a + |t|];
  }

  lemma {:induction false} EntriesPrefix(v: View, d: seq<u8>, addr: u32, part: seq<Text>, strs: seq<Text>)
    requires EntriesAt(v, d, addr, part) && VectorAt(v, d, addr, strs)
    ensures |part| <= |strs| && part == strs[..|part|]
  {
    if part != [] {
      var n := |part| - 1;
      assert forall i :: 0 <= i < n ==> EntryAt(v, d, addr, i, part[..n][i]) by {
        assert forall i :: 0 <= i < n ==> EntryAt(v, d, addr, i, part[i]);
      }
      EntriesPrefix(v, d, addr, part[..n], strs);
      assert EntryAt(v, d, addr, n, part[n]);
      assert n < |strs|;
      assert EntryAt(v, d, addr, n, strs[n]);
      StringUnique(v, d, Get32(d, Add32(addr, 4 * n)), STRING_LIMIT, part[n], strs[n]);
      assert part == part[..n] + [part[n]];
    }
  }

  /** A place holds at most one vector. */
  lemma VectorUnique(v: View, d: seq<u8>, addr: u32, xs: seq<Text>, ys: seq<Text>)
    requires VectorAt(v, d, addr, xs) && VectorAt(v, d, addr, ys)
    ensures xs == ys
  {
    EntriesPrefix(v, d, addr, xs, ys);
    EntriesPrefix(v, d, addr, ys, xs);
  }

  lemma VectorNext(v: View, d: seq<u8>, addr: u32, part: seq<Text>, strs: seq<Text>)
    requires EntriesAt(v, d, addr, part) && VectorAt(v, d, addr, strs)
    ensures |part| < VECTOR_LIMIT
    ensures WordIs(v, d, Add32(addr, 4 * |part|), 0) || exists s :: EntryAt(v, d, addr, |part|, s)
  {
    EntriesPrefix(v, d, addr, part, strs);
    if |part| < |strs| { assert EntryAt(v, d, addr, |part|, strs[|part|]); }
  }

  lemma NoVector(v: View, d: seq<u8>, addr: u32, part: seq<Text>)
    requires EntriesAt(v, d, addr, part)
    requires |part| == VECTOR_LIMIT
             || (!WordIs(v, d, Add32(addr, 4 * |part|), 0) && forall s :: !EntryAt(v, d, addr, |part|, s))
    ensures forall strs :: !VectorAt(v, d, addr, strs)
  {
    forall strs | VectorAt(v, d, addr, strs)
      ensures |part| < VECTOR_LIMIT
              && (WordIs(v, d, Add32(addr, 4 * |part|), 0) || exists s :: EntryAt(v, d, addr, |part|, s))
    {
      VectorNext(v, d, addr, part, strs);
    }
  }

  /** Reads a vector of strings, and fails exactly when there is none; address 0 is an empty vector. */
  method ReadVector(space: AddressSpace, addr: u32) returns (r: Option<seq<Text>>)
    requires space.Sized()
    ensures addr == 0 ==> r == Some([])
    ensures addr != 0 && r.Some? ==> VectorAt(space.Access(), space.data[..], addr, r.value)
    ensures addr != 0 && r.None? ==> forall strs :: !VectorAt(space.Access(), space.data[..], addr, strs)
  {
    if addr == 0 { return Some([]); }
    var out: seq<Text> := [];
    ghost var v, d := space.Access(), space.data[..];
    for i := 0 to VECTOR_LIMIT
      invariant |out| == i && EntriesAt(v, d, addr, out)
    {
      var ptr := space.Read32(Add32(addr, 4 * i));
      if ptr.None? {
        NoVector(v, d, addr, out);
        return None;
      }
      if ptr.value == 0 { return Some(out); }
      var text := space.ReadCString(ptr.value, STRING_LIMIT);
      if text.None? {
        assert space.Access() == v && space.data[..] == d && STRING_LIMIT != 0;
        assert forall s :: !EntryAt(v, d, addr, i, s) by {
          assert forall s :: !StringAt(v, d, ptr.value, STRING_LIMIT, s);
        }
        NoVector(v, d, addr, out);
        return None;
      }
      out := out + [text.value];
    }
    NoVector(v, d, addr, out);
    r := None;
  }

  // ---------------------------------------------------------------- the stack reads back

  /** Strings the vector reader can return: no NUL inside, and within its limits. */
  predicate Legible(values: seq<Text>) {
    |values| < VECTOR_LIMIT && forall i :: 0 <= i < |values| ==> |values[i]| < STRING_LIMIT && 0 !in values[i]
  }

  /** The bytes at the `i`-th pointer are the `i`-th string and its NUL. */
  lemma PackedEntry(d: seq<u8>, values: seq<Text>, top: u32, i: nat)
    requires i < |values| && |Packed(values)| <= top <= |d| && d[top - |Packed(values)|..top] == Packed(values)
    ensures var p := Pointers(values, top)[i];
            && top - |Packed(values)| <= p && p + |values[i]| < top
            && d[p..p + |values[i]|] == values[i] && d[p + |values[i]|] == 0
  {
    PointerAt(values, top, i);
    PackedTail(values, i);
    PackedStep(values, i, top);
    var p, rest := Pointers(values, top)[i], Packed(values[i..]);
    assert d[p..top] == d[top - |Packed(values)|..top][|Packed(values)| - |rest|..];
    assert d[p..top] == rest;
    assert d[p..p + |values[i]|] == rest[..|values[i]|] == values[i];
    assert d[p + |values[i]|] == rest[|values[i]|];
  }

  lemma StringReads(v: View, d: seq<u8>, p: u32, s: Text, lo: u32, hi: u32)
    requires |d| == v.max && AllReadable(v, lo, hi)
    requires lo <= p && p + |s| < hi && d[p..p + |s|] == s && d[p + |s|] == 0
    ensures StringAt(v, d, p, STRING_LIMIT, s) <==> |s| < STRING_LIMIT && 0 !in s
  {
    forall a | p <= a <= p + |s| ensures a < 0x1_0000_0000 && v.Permits(a, 1, PROT_READ) {}
  }

  /** The bytes of [lo, top) are readable, and the strings lie packed below `top`, above `lo`. */
  ghost predicate PackedBelow(v: View, d: seq<u8>, values: seq<Text>, lo: u32, top: u32) {
    && |d| == v.max && lo + |Packed(values)| < top && AllReadable(v, lo, top)
    && d[top - |Packed(values)|..top] == Packed(values)
  }

  lemma EntryReads(v: View, d: seq<u8>, addr: u32, values: seq<Text>, top: u32, lo: u32, i: nat)
    requires PackedBelow(v, d, values, lo, top)
    requires i < |values| && lo <= addr && addr + 4 * i + 4 <= top && Get32(d, addr + 4 * i) == Pointers(values, top)[i]
    ensures EntryAt(v, d, addr, i, values[i]) <==> |values[i]| < STRING_LIMIT && 0 !in values[i]
  {
    var a := addr + 4 * i;
    assert Add32(addr, 4 * i) == a;
    PackedEntry(d, values, top, i);
    StringReads(v, d, Get32(d, a), values[i], lo, top);
  }

  /** A vector of pointers to packed strings reads back as those strings exactly when they are legible. */
  lemma VectorReads(v: View, d: seq<u8>, addr: u32, values: seq<Text>, top: u32, lo: u32)
    requires PackedBelow(v, d, values, lo, top)
    requires lo <= addr && addr + 4 * |values| + 4 <= top && WordsAt(d, addr, Pointers(values, top) + [0])
    ensures VectorAt(v, d, addr, values) <==> Legible(values)
  {
    var ptrs, n := Pointers(values, top) + [0], |values|;
    assert WordIs(v, d, Add32(addr, 4 * n), 0) by {
      assert WordAt(d, addr, n) == ptrs[n];
    }
    forall i | 0 <= i < |values|
      ensures EntryAt(v, d, addr, i, values[i]) <==> |values[i]| < STRING_LIMIT && 0 !in values[i]
    {
      assert WordAt(d, addr, i) == ptrs[i];
      EntryReads(v, d, addr, values, top, lo, i);
    }
  }

  lemma TwoRegions(d0: seq<u8>, d: seq<u8>, low: nat, mid: nat, top: nat, e: seq<u8>, a: seq<u8>, sp: nat, w: seq<u8>)
    requires low + |e| == mid && mid + |a| == top <= |d0| && sp + |w| <= low
    requires d == Splice(Splice(d0, low, e + a), sp, w)
    ensures d[sp..sp + |w|] == w && d[low..mid] == e && d[mid..top] == a
  {
  }

  /** The parts of the word block. */
  lemma StackParts(a: seq<u32>, e: seq<u32>, auxv: seq<Aux>, ws: seq<u32>)
    requires |a| < 0x1_0000_0000 && ws == StackWords(a, e, auxv)
    ensures ws[0] == |a| && ws[1..1 + |a + [0]|] == a + [0]
    ensures ws[2 + |a|..2 + |a| + |e + [0]|] == e + [0]
    ensures ws[3 + |a| + |e|..3 + |a| + |e| + |AuxWords(auxv) + [0, 0]|] == AuxWords(auxv) + [0, 0]
  {
  }

  /** A count, an argument vector, an environment vector and the auxiliary entries, from `sp` up. */
  ghost predicate BlockAt(d: seq<u8>, sp: nat, a: seq<u32>, e: seq<u32>, auxv: seq<Aux>) {
    && sp + 4 <= |d| && Get32(d, sp) == |a|
    && WordsAt(d, sp + 4, a + [0])
    && WordsAt(d, sp + 8 + 4 * |a|, e + [0])
    && WordsAt(d, sp + 12 + 4 * |a| + 4 * |e|, AuxWords(auxv) + [0, 0])
  }

  lemma BlockEncoded(d: seq<u8>, sp: nat, a: seq<u32>, e: seq<u32>, auxv: seq<Aux>, ws: seq<u32>)
    requires |a| < 0x1_0000_0000 && ws == StackWords(a, e, auxv)
    requires sp + 4 * |ws| <= |d| && d[sp..sp + 4 * |ws|] == Encode(ws)
    ensures BlockAt(d, sp, a, e, auxv)
  {
    hide Encode, WordsAt, StackWords, AuxWords;
    EncodedWords(d, sp, ws);
    StackParts(a, e, auxv, ws);
    assert WordAt(d, sp, 0) == ws[0];
    WordsPart(d, sp, ws, 1, sp + 4, a + [0]);
    WordsPart(d, sp, ws, 2 + |a|, sp + 8 + 4 * |a|, e + [0]);
    WordsPart(d, sp, ws, 3 + |a| + |e|, sp + 12 + 4 * |a| + 4 * |e|, AuxWords(auxv) + [0, 0]);
  }

  /** What a stack holds where: argument strings in [mid, top), environment strings in [low, mid), and
      the word block below. */
  ghost predicate StackHolds(d: seq<u8>, top: u32, mid: u32, low: u32, sp: u32, argv: seq<Text>, envp: seq<Text>,
                             auxv: seq<Aux>) {
    && argv != [] && mid == top - |Packed(argv)| && low == mid - |Packed(envp)|
    && top <= |d| && sp + 4 * WordCount(argv, envp, auxv) <= low
    && d[mid..top] == Packed(argv) && d[low..mid] == Packed(envp)
    && BlockAt(d, sp, Pointers(argv, top), Pointers(envp, mid), WithExecFn(auxv, Pointers(argv, top)[0]))
  }

  lemma BuiltHolds(d0: seq<u8>, d: seq<u8>, top: u32, mid: u32, low: u32, sp: u32, argv: seq<Text>, envp: seq<Text>,
                   auxv: seq<Aux>)
    requires argv != [] && StackBuilt(d0, d, top, sp, argv, envp, auxv)
    requires mid == top - |Packed(argv)| && low == mid - |Packed(envp)|
    ensures StackHolds(d, top, mid, low, sp, argv, envp, auxv)
  {
    hide Splice, Encode, Packed, Pointers, StackWords, BlockAt;
    var a, e := Pointers(argv, top), Pointers(envp, mid);
    var aux := WithExecFn(auxv, a[0]);
    var words := StackWords(a, e, aux);
    TwoRegions(d0, d, low, mid, top, Packed(envp), Packed(argv), sp, Encode(words));
    BlockEncoded(d, sp, a, e, aux, words);
  }

  /** The argument and environment vectors of a new stack read back as the strings that were pushed,
      exactly when those are legible; the count is the number of arguments. */
  lemma StackReadsBack(v: View, d: seq<u8>, top: u32, mid: u32, low: u32, sp: u32, argv: seq<Text>, envp: seq<Text>,
                       auxv: seq<Aux>)
    requires StackHolds(d, top, mid, low, sp, argv, envp, auxv)
    requires |d| == v.max && AllReadable(v, sp, top)
    ensures Get32(d, sp) == |argv|
    ensures VectorAt(v, d, sp + 4, argv) <==> Legible(argv)
    ensures VectorAt(v, d, sp + 8 + 4 * |argv|, envp) <==> Legible(envp)
  {
    hide Packed, Pointers, WordsAt, VectorAt, Legible;
    VectorReads(v, d, sp + 4, argv, top, sp);
    assert AllReadable(v, sp, mid);
    VectorReads(v, d, sp + 8 + 4 * |argv|, envp, mid, sp);
  }

  /** Above the environment lie the auxiliary entries in order, then a zero pair; the value of an
      AT_EXECFN entry is the pointer to the first argument. */
  lemma StackAux(d: seq<u8>, top: u32, mid: u32, low: u32, sp: u32, argv: seq<Text>, envp: seq<Text>, auxv: seq<Aux>)
    requires StackHolds(d, top, mid, low, sp, argv, envp, auxv)
    ensures WordsAt(d, sp + 12 + 4 * |argv| + 4 * |envp|, AuxWords(WithExecFn(auxv, Get32(d, sp + 4))) + [0, 0])
  {
    var a := Pointers(argv, top);
    assert WordAt(d, sp + 4, 0) == (a + [0])[0] == a[0];
  }

  /** What a program started on a new stack reads through the vectors it finds there: a legible list of
      strings as it was pushed, and no other list as it was. */
  method PushAndRead(space: AddressSpace, top: u32, args: seq<Text>, envp: seq<Text>, auxv: seq<Aux>)
    returns (stack: Option<u32>, argv: Option<seq<Text>>, env: Option<seq<Text>>)
    requires space.Sized()
    requires forall i :: 0 <= i < |args| ==> |args[i]| < 0xffff_ffff
    requires forall i :: 0 <= i < |envp| ==> |envp[i]| < 0xffff_ffff
    modifies space.data
    ensures stack.Some? && stack.value <= top && AllReadable(space.Access(), stack.value, top) ==>
              && (argv == Some(Arguments(args)) <==> Legible(Arguments(args)))
              && (env == Some(envp) <==> Legible(envp))
    ensures !space.protected && top <= space.max && Fits(top, Arguments(args), envp, auxv) ==> stack.Some?
  {
    hide StackBuilt, Fits, VectorAt, Legible, Packed;
    argv, env := None, None;
    stack := PushInitialStack(space, top, args, envp, auxv);
    if stack.None? { return; }
    ghost var given := Arguments(args);
    argv := ReadVector(space, Add32(stack.value, 4));
    env := ReadVector(space, Add32(stack.value, 8 + 4 * |Arguments(args)|));
    ghost var v, d := space.Access(), space.data[..];
    if stack.value <= top && AllReadable(v, stack.value, top) {
      BuiltReadsBack(v, old(space.data[..]), d, top, stack.value, given, envp, auxv);
      OnlyVector(v, d, stack.value + 4, argv, given);
      OnlyVector(v, d, stack.value + 8 + 4 * |given|, env, envp);
    }
  }

  lemma BuiltReadsBack(v: View, d0: seq<u8>, d: seq<u8>, top: u32, sp: u32, argv: seq<Text>, envp: seq<Text>,
                       auxv: seq<Aux>)
    requires argv != [] && StackBuilt(d0, d, top, sp, argv, envp, auxv)
    requires |d| == v.max && sp <= top && AllReadable(v, sp, top)
    ensures sp + 8 + 4 * |argv| < 0x1_0000_0000
    ensures VectorAt(v, d, sp + 4, argv) <==> Legible(argv)
    ensures VectorAt(v, d, sp + 8 + 4 * |argv|, envp) <==> Legible(envp)
  {
    var mid := top - |Packed(argv)|;
    var low := mid - |Packed(envp)|;
    BuiltHolds(d0, d, top, mid, low, sp, argv, envp, auxv);
    hide StackBuilt, StackHolds, Packed, VectorAt, Legible;
    StackReadsBack(v, d, top, mid, low, sp, argv, envp, auxv);
  }

  lemma OnlyVector(v: View, d: seq<u8>, addr: u32, r: Option<seq<Text>>, strs: seq<Text>)
    requires if r.Some? then VectorAt(v, d, addr, r.value) else forall ys :: !VectorAt(v, d, addr, ys)
    ensures r == Some(strs) <==> VectorAt(v, d, addr, strs)
  {
    hide VectorAt;
    if r.Some? && VectorAt(v, d, addr, strs) { VectorUnique(v, d, addr, r.value, strs); }
  }
}
