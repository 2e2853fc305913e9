/** Runs of 32-bit words in guest memory. */
module GuestWords {
  import opened Words
  import opened Bytes
  import opened Mappings
  import opened Sortings
  import opened AddressSpaces

  function Encode(words: seq<u32>): (b: seq<u8>)
    ensures |b| == 4 * |words|
  {
    if words == [] then [] else Put32(words[0]) + Encode(words[1..])
  }

  lemma {:induction false} EncodeConcat(xs: seq<u32>, ys: seq<u32>)
    ensures Encode(xs + ys) == Encode(xs) + Encode(ys)
  {
    if xs == [] {
      assert xs + ys == ys;
    } else {
      assert (xs + ys)[1..] == xs[1..] + ys;
      EncodeConcat(xs[1..], ys);
      assert Put32(xs[0]) + (Encode(xs[1..]) + Encode(ys)) == Put32(xs[0]) + Encode(xs[1..]) + Encode(ys);
    }
  }

  lemma EncodeStep(words: seq<u32>, k: nat)
    requires k < |words|
    ensures Encode(words[..k + 1]) == Encode(words[..k]) + Put32(words[k])
  {
    assert words[..k + 1] == words[..k] + [words[k]];
    EncodeConcat(words[..k], [words[k]]);
    assert Encode([words[k]]) == Put32(words[k]);
  }

  lemma {:induction false} EncodedWord(words: seq<u32>, i: nat)
    requires i < |words|
    ensures Encode(words)[4 * i..4 * i + 4] == Put32(words[i])
  {
    if i > 0 {
      EncodedWord(words[1..], i - 1);
      assert Encode(words)[4..] == Encode(words[1..]);
      assert Encode(words)[4 * i..4 * i + 4] == Encode(words)[4..][4 * (i - 1)..4 * (i - 1) + 4];
    }
  }

  ghost function WordAt(d: seq<u8>, a: nat, i: nat): u32
    requires a + 4 * i + 4 <= |d|
  {
    Get32(d, a + 4 * i)
  }

  /** The words lie one after the other from `a`. */
  ghost predicate WordsAt(d: seq<u8>, a: nat, words: seq<u32>) {
    a + 4 * |words| <= |d| && forall i :: 0 <= i < |words| ==> WordAt(d, a, i) == words[i]
  }

  ghost predicate WordIs(v: View, d: seq<u8>, a: u32, w: u32) {
    a + 4 <= |d| && v.Permits(a, 4, PROT_READ) && Get32(d, a) == w
  }

  /** On a list in ascending order a permitted range permits every part of it. */
  lemma PermitsPart(v: View, lo: u32, hi: u32, a: u32, w: u32, need: bv8)
    requires Ascending(v.mappings) && lo <= hi && v.Permits(lo, hi - lo, need) && lo <= a && a + w <= hi
    ensures v.Permits(a, w, need)
  {
    v.PermitsBytes(lo, hi - lo, need);
    v.PermitsBytes(a, w, need);
  }

  lemma PermitsJoin(v: View, lo: u32, mid: u32, hi: u32, need: bv8)
    requires Ascending(v.mappings)
    requires lo <= mid <= hi && v.Permits(lo, mid - lo, need) && v.Permits(mid, hi - mid, need)
    ensures v.Permits(lo, hi - lo, need)
  {
    v.PermitsBytes(lo, mid - lo, need);
    v.PermitsBytes(mid, hi - mid, need);
    v.PermitsBytes(lo, hi - lo, need);
  }

  lemma SubSlice(d: seq<u8>, lo: nat, e: seq<u8>, i: nat, a: nat, x: seq<u8>)
    requires lo + |e| <= |d| && d[lo..lo + |e|] == e && i + |x| <= |e| && e[i..i + |x|] == x && a == lo + i
    ensures d[a..a + |x|] == x
  {
    assert forall k :: 0 <= k < |x| ==> x[k] == e[i + k] == d[a + k];
  }

  lemma WordInside(d: seq<u8>, lo: nat, e: seq<u8>, i: nat, w: u32)
    requires lo + |e| <= |d| && d[lo..lo + |e|] == e && i + 4 <= |e| && e[i..i + 4] == Put32(w)
    ensures Get32(d, lo + i) == w
  {
    SubSlice(d, lo, e, i, lo + i, Put32(w));
    GetBytes(d, lo + i, w);
  }

  lemma DecodeWord(d: seq<u8>, sp: nat, words: seq<u32>, i: nat)
    requires i < |words| && sp + 4 * |words| <= |d| && d[sp..sp + 4 * |words|] == Encode(words)
    ensures Get32(d, sp + 4 * i) == words[i]
  {
    hide Put32, Get32, Encode;
    EncodedWord(words, i);
    WordInside(d, sp, Encode(words), 4 * i, words[i]);
  }

  lemma EncodedWords(d: seq<u8>, a: nat, words: seq<u32>)
    requires a + 4 * |words| <= |d| && d[a..a + 4 * |words|] == Encode(words)
    ensures WordsAt(d, a, words)
  {
    forall i | 0 <= i < |words| ensures WordAt(d, a, i) == words[i] { DecodeWord(d, a, words, i); }
  }

  lemma WordsPart(d: seq<u8>, a: nat, words: seq<u32>, k: nat, b: nat, part: seq<u32>)
    requires b == a + 4 * k && WordsAt(d, a, words) && k + |part| <= |words| && words[k..k + |part|] == part
    ensures WordsAt(d, b, part)
  {
    forall i | 0 <= i < |part| ensures WordAt(d, b, i) == part[i] {
      assert part[i] == words[k + i] == WordAt(d, a, k + i);
    }
  }

  /** The words can be written upwards from `a`, one by one, inside guest memory. */
  ghost predicate Writable(v: View, a: u32, n: nat) {
    forall i :: 0 <= i < n ==> a + 4 * i < 0x1_0000_0000 && v.Permits(a + 4 * i, 4, PROT_WRITE)
  }

  lemma {:induction false} WritableJoin(v: View, a: u32, n: nat)
    requires Ascending(v.mappings) && n > 0 && Writable(v, a, n)
    ensures a + 4 * n <= v.max && v.Permits(a, 4 * n, PROT_WRITE)
  {
    hide Walk, Ascending;
    var last := a + 4 * (n - 1);
    assert v.Permits(last, 4, PROT_WRITE);
    if n > 1 {
      WritableJoin(v, a, n - 1);
      PermitsJoin(v, a, last, last + 4, PROT_WRITE);
    }
  }

  /** On a list in ascending order they can exactly when the whole block can be written at once. */
  lemma WritableBlock(v: View, a: u32, n: nat)
    requires Ascending(v.mappings)
    ensures Writable(v, a, n) <==> n > 0 ==> a + 4 * n <= v.max && v.Permits(a, 4 * n, PROT_WRITE)
  {
    hide Walk, Ascending;
    if n > 0 && Writable(v, a, n) { WritableJoin(v, a, n); }
    if n > 0 && a + 4 * n <= v.max && v.Permits(a, 4 * n, PROT_WRITE) {
      forall i | 0 <= i < n ensures v.Permits(a + 4 * i, 4, PROT_WRITE) {
        PermitsPart(v, a, a + 4 * n, a + 4 * i, 4, PROT_WRITE);
      }
    }
  }

  /** `d` is `d0` with the words written over it from `a`. */
  ghost predicate Wrote(d0: seq<u8>, d: seq<u8>, a: nat, words: seq<u32>) {
    if words == [] then d == d0 else a + 4 * |words| <= |d0| && d == Splice(d0, a, Encode(words))
  }

  lemma WroteNothing(d: seq<u8>, a: nat, words: seq<u32>)
    ensures Wrote(d, d, a, words[..0])
  {
  }

  lemma WroteStep(d0: seq<u8>, d: seq<u8>, d': seq<u8>, a: nat, words: seq<u32>, k: nat)
    requires k < |words| && Wrote(d0, d, a, words[..k]) && a + 4 * k + 4 <= |d0| == |d|
    requires d' == Splice(d, a + 4 * k, Put32(words[k]))
    ensures Wrote(d0, d', a, words[..k + 1])
  {
    EncodeStep(words, k);
    if k > 0 { SpliceAdjacent(d0, a, Encode(words[..k]), Put32(words[k])); }
  }

  /** Words whose bytes are the same read the same. */
  lemma WordsKept(d0: seq<u8>, d: seq<u8>, a: nat, words: seq<u32>)
    requires WordsAt(d0, a, words) && |d| == |d0|
    requires forall i :: a <= i < a + 4 * |words| ==> d[i] == d0[i]
    ensures WordsAt(d, a, words)
  {
    forall i | 0 <= i < |words| ensures WordAt(d, a, i) == words[i] {
      assert WordAt(d0, a, i) == words[i];
    }
  }

  /** Written words are there. */
  lemma WroteWords(d0: seq<u8>, d: seq<u8>, a: nat, words: seq<u32>)
    requires words != [] && Wrote(d0, d, a, words)
    ensures WordsAt(d, a, words) && |d| == |d0|
  {
    assert d[a..a + 4 * |words|] == Encode(words);
    EncodedWords(d, a, words);
  }

  /** Nothing outside the `n` bytes from `a` differs. */
  ghost predicate SameOutside(d0: seq<u8>, d: seq<u8>, a: int, n: nat) {
    |d| == |d0| && forall i :: 0 <= i < |d| && !(a <= i < a + n) ==> d[i] == d0[i]
  }

  lemma WroteOutside(d0: seq<u8>, d: seq<u8>, a: nat, words: seq<u32>, k: nat)
    requires k <= |words| && Wrote(d0, d, a, words[..k])
    ensures SameOutside(d0, d, a, 4 * |words|)
  {
  }

  /** Writes the words upwards from `at` and stops at the first that cannot be written, so the cursor
      cannot wrap around.  Nothing outside the block is touched. */
  method WriteWords(space: AddressSpace, at: u32, words: seq<u32>) returns (ok: bool)
    requires space.Sized()
    modifies space.data
    ensures ok <==> Writable(space.Access(), at, |words|)
    ensures ok ==> Wrote(old(space.data[..]), space.data[..], at, words)
    ensures SameOutside(old(space.data[..]), space.data[..], at, 4 * |words|)
  {
    hide Splice, Encode, Wrote, SameOutside;
    var cursor := at;
    ghost var d0, v := space.data[..], space.Access();
    WroteNothing(d0, at, words);
    for k := 0 to |words|
      invariant cursor == at + 4 * k && Writable(v, at, k)
      invariant Wrote(d0, space.data[..], at, words[..k])
    {
      WroteOutside(d0, space.data[..], at, words, k);
      ghost var d := space.data[..];
      var wrote := space.Write32(cursor, words[k]);
      if !wrote { return false; }
      WroteStep(d0, d, space.data[..], at, words, k);
      cursor := Add32(cursor, 4);
    }
    assert words[..|words|] == words;
    WroteOutside(d0, space.data[..], at, words, |words|);
    ok := true;
  }

  /** The `n` words at `a`, wrapping around the end of the address range, are readable. */
  ghost predicate Readable(v: View, a: u32, n: nat) {
    forall i :: 0 <= i < n ==> v.Permits(Add32(a, 4 * i), 4, PROT_READ)
  }

  /** Every byte of [lo, hi) and every word inside it is readable. */
  ghost predicate AllReadable(v: View, lo: u32, hi: u32) {
    && hi <= v.max
    && (forall a: u32 :: lo <= a < hi ==> v.Permits(a, 1, PROT_READ))
    && (forall a: u32 :: lo <= a && a + 4 <= hi ==> v.Permits(a, 4, PROT_READ))
  }

  /** On a list in ascending order it is when the range can be read at once. */
  lemma ReadableBlock(v: View, lo: u32, hi: u32)
    requires Ascending(v.mappings) && lo <= hi && v.Permits(lo, hi - lo, PROT_READ)
    ensures AllReadable(v, lo, hi)
  {
    forall a: u32 | lo <= a < hi ensures v.Permits(a, 1, PROT_READ) { PermitsPart(v, lo, hi, a, 1, PROT_READ); }
    forall a: u32 | lo <= a && a + 4 <= hi ensures v.Permits(a, 4, PROT_READ) {
      PermitsPart(v, lo, hi, a, 4, PROT_READ);
    }
  }

  ghost function WordsFrom(d: seq<u8>, a: u32, n: nat): (ws: seq<u32>)
    requires forall i :: 0 <= i < n ==> Add32(a, 4 * i) + 4 <= |d|
    ensures |ws| == n
  {
    seq(n, i requires 0 <= i < n => Get32(d, Add32(a, 4 * i)))
  }

  method ReadWords(space: AddressSpace, a: u32, n: nat) returns (words: Option<seq<u32>>)
    requires space.Sized()
    ensures words.Some? <==> Readable(space.Access(), a, n)
    ensures words.Some? ==> words.value == WordsFrom(space.data[..], a, n)
  {
    var out: seq<u32> := [];
    ghost var v, d := space.Access(), space.data[..];
    for k := 0 to n
      invariant Readable(v, a, k) && out == WordsFrom(d, a, k)
    {
      var w := space.Read32(Add32(a, 4 * k));
      if w.None? { return None; }
      out := out + [w.value];
    }
    words := Some(out);
  }
}
