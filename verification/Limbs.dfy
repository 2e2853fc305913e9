/** Multi-limb arithmetic as a guest does it: ADD then ADC, or SUB then SBB, limb by limb. */
module Limbs {
  import opened Words
  import opened Flags

  const B: int := 0x1_0000_0000

  /** The weight of limb `n`. */
  function Pow(n: nat): (p: int)
    ensures p > 0 && (n > 0 ==> p % 2 == 0)
  {
    if n == 0 then 1 else B * Pow(n - 1)
  }

  /** The number that little-endian limbs stand for. */
  function Value(xs: seq<u32>): int {
    if xs == [] then 0 else xs[0] + B * Value(xs[1..])
  }

  /** The same limbs as a two's complement number. */
  function SignedValue(xs: seq<u32>): int
    requires xs != []
  {
    if |xs| == 1 then Signed(xs[0], 32) else xs[0] + B * SignedValue(xs[1..])
  }

  function Carry(f: FlagSet): nat { if f.cf then 1 else 0 }

  datatype Out = Out(limbs: seq<u32>, flags: FlagSet)

  /** Adds limb by limb with carry `c` into the lowest one; ADD is ADC with no carry in.  The flags
      are those of the last limb. */
  function AddChain(a: seq<u32>, b: seq<u32>, c: nat): (r: Out)
    requires |a| == |b| > 0 && c <= 1
    ensures |r.limbs| == |a|
  {
    var d, f := Add32(Add32(a[0], b[0]), c), AddMeaning(a[0], b[0], c, 32);
    if |a| == 1 then Out([d], f)
    else
      var high := AddChain(a[1..], b[1..], Carry(f));
      Out([d] + high.limbs, high.flags)
  }

  /** Subtracts limb by limb with borrow `c`; SUB is SBB with no borrow in.  The second component is
      the borrow out. */
  function SubChain(a: seq<u32>, b: seq<u32>, c: nat): (r: (seq<u32>, nat))
    requires |a| == |b| && c <= 1
    ensures |r.0| == |a| && r.1 <= 1
  {
    if a == [] then ([], c)
    else
      var high := SubChain(a[1..], b[1..], BorrowOut(a[0], b[0], c));
      ([Sub32(Sub32(a[0], b[0]), c)] + high.0, high.1)
  }

  function BorrowOut(x: u32, y: u32, c: nat): (r: nat)
    requires c <= 1
    ensures r <= 1
  {
    if SbbBorrow(x, y, c) then 1 else 0
  }

  /** A limb 0xffffffff is subtracted with a borrow coming in, so the borrow out is lost. */
  predicate LosesBorrow(y: u32, c: nat) { y == 0xffff_ffff && c == 1 }

  predicate NoneLost(a: seq<u32>, b: seq<u32>, c: nat)
    requires |a| == |b| && c <= 1
  {
    a == [] || (!LosesBorrow(b[0], c) && NoneLost(a[1..], b[1..], BorrowOut(a[0], b[0], c)))
  }

  /** What the lost borrows add up to. */
  function Lost(a: seq<u32>, b: seq<u32>, c: nat): nat
    requires |a| == |b| && c <= 1
  {
    if a == [] then 0
    else B * ((if LosesBorrow(b[0], c) then 1 else 0) + Lost(a[1..], b[1..], BorrowOut(a[0], b[0], c)))
  }

  lemma AddLimb(x: u32, y: u32, c: nat)
    requires c <= 1
    ensures x + y + c == Add32(Add32(x, y), c) + B * Carry(AddMeaning(x, y, c, 32))
  {
    var s := Add32(x, y);
    assert s == if x + y < B then x + y else x + y - B;
    assert Add32(s, c) == if s + c < B then s + c else s + c - B;
  }

  lemma SubLimb(x: u32, y: u32, c: nat)
    requires c <= 1
    ensures x - y - c == Sub32(Sub32(x, y), c) - B * (BorrowOut(x, y, c) + if LosesBorrow(y, c) then 1 else 0)
  {
    var s := Sub32(x, y);
    assert s == if y <= x then x - y else x - y + B;
    assert Sub32(s, c) == if c <= s then s - c else s - c + B;
  }

  /** The chain computes the exact sum, with the carry flag as its top digit. */
  lemma {:induction false} AddChainExact(a: seq<u32>, b: seq<u32>, c: nat)
    requires |a| == |b| > 0 && c <= 1
    ensures var r := AddChain(a, b, c);
            Value(r.limbs) + (if r.flags.cf then Pow(|a|) else 0) == Value(a) + Value(b) + c
  {
    AddLimb(a[0], b[0], c);
    if |a| == 1 {
      assert Pow(1) == B * Pow(0);
    } else {
      AddChainExact(a[1..], b[1..], Carry(AddMeaning(a[0], b[0], c, 32)));
    }
  }

  /** The overflow flag of the last limb is the signed overflow of the whole sum. */
  lemma {:induction false} AddChainOverflow(a: seq<u32>, b: seq<u32>, c: nat)
    requires |a| == |b| > 0 && c <= 1
    ensures AddChain(a, b, c).flags.of
       <==> !(-Pow(|a|) <= 2 * (SignedValue(a) + SignedValue(b) + c) < Pow(|a|))
  {
    if |a| == 1 {
      assert Pow(1) == B * Pow(0);
    } else {
      var c' := Carry(AddMeaning(a[0], b[0], c, 32));
      AddLimb(a[0], b[0], c);
      AddChainOverflow(a[1..], b[1..], c');
      RangeScales(SignedValue(a[1..]) + SignedValue(b[1..]) + c', Add32(Add32(a[0], b[0]), c), Pow(|a| - 1));
    }
  }

  /** A number is in signed range exactly when what is left after dropping its lowest limb is. */
  lemma RangeScales(t: int, d: u32, p: int)
    requires p % 2 == 0
    ensures -(B * p) <= 2 * (d + B * t) < B * p <==> -p <= 2 * t < p
  {
  }

  /** The SBB chain is off by exactly the borrows it loses. */
  lemma {:induction false} SubChainExact(a: seq<u32>, b: seq<u32>, c: nat)
    requires |a| == |b| && c <= 1
    ensures var r := SubChain(a, b, c);
            Value(r.0) - (if r.1 == 1 then Pow(|a|) else 0) == Value(a) - Value(b) - c + Lost(a, b, c)
  {
    if a != [] {
      SubLimb(a[0], b[0], c);
      SubChainExact(a[1..], b[1..], BorrowOut(a[0], b[0], c));
    }
  }

  /** The difference and its borrow are exact if and only if no limb loses a borrow. */
  lemma SubChainCorrectIff(a: seq<u32>, b: seq<u32>, c: nat)
    requires |a| == |b| && c <= 1
    ensures var r := SubChain(a, b, c);
            Value(r.0) - (if r.1 == 1 then Pow(|a|) else 0) == Value(a) - Value(b) - c <==> NoneLost(a, b, c)
  {
    SubChainExact(a, b, c);
    LostZero(a, b, c);
  }

  lemma {:induction false} LostZero(a: seq<u32>, b: seq<u32>, c: nat)
    requires |a| == |b| && c <= 1
    ensures Lost(a, b, c) == 0 <==> NoneLost(a, b, c)
  {
    if a != [] { LostZero(a[1..], b[1..], BorrowOut(a[0], b[0], c)); }
  }

  /** The smallest failing case: two limbs, the upper one 0xffffffff with a borrow coming in. */
  lemma BorrowLost()
    ensures var a, b := [0, 0], [1, 0xffff_ffff]; var r := SubChain(a, b, 0);
            Value(r.0) - (if r.1 == 1 then Pow(2) else 0) != Value(a) - Value(b)
  {
    var a, b := [0, 0], [1, 0xffff_ffff];
    assert a[1..] == [0] && b[1..] == [0xffff_ffff];
    assert BorrowOut(a[0], b[0], 0) == 1 && LosesBorrow(b[1..][0], 1);
    assert !NoneLost(a[1..], b[1..], 1);
    SubChainCorrectIff(a, b, 0);
  }

  lemma SbbResult(x: u32, y: u32, c: nat)
    requires c <= 1
    ensures Sub32(Sub32(x, y), c) == (x - y - c) % B
  {
    SubLimb(x, y, c);
  }

  // ---------------------------------------------------------------- the instructions

  /** ADD r32, r32 */
  method AddInstruction(cpu: FlagUnit, x: u32, y: u32) returns (r: u32)
    modifies cpu
    ensures r == Add32(x, y) && cpu.Read() == AddMeaning(x, y, 0, 32)
  {
    r := Add32(x, y);
    cpu.SetAddFlags(x, y, r);
  }

  /** ADC r32, r32 */
  method AdcInstruction(cpu: FlagUnit, x: u32, y: u32) returns (r: u32)
    modifies cpu
    ensures var c := Carry(old(cpu.Read()));
            r == Add32(Add32(x, y), c) && cpu.Read() == AddMeaning(x, y, c, 32)
  {
    var carry := if cpu.Read().cf then 1 else 0;
    r := Add32(Add32(x, y), carry);
    cpu.SetAdcFlagsN(x, y, carry, 32);
  }

  /** SUB r32, r32 */
  method SubInstruction(cpu: FlagUnit, x: u32, y: u32) returns (r: u32)
    modifies cpu
    ensures r == Sub32(x, y) && cpu.Read() == SubMeaning(x, y, 32)
  {
    r := Sub32(x, y);
    cpu.SetSubFlagsN(x, y, r, 32);
  }

  /** SBB r32, r32 */
  method SbbInstruction(cpu: FlagUnit, x: u32, y: u32) returns (r: u32)
    modifies cpu
    ensures var c := Carry(old(cpu.Read()));
            r == Sub32(Sub32(x, y), c) && Carry(cpu.Read()) == BorrowOut(x, y, c)
    ensures cpu.Read().zf == (r == 0) && cpu.Read().sf == (r >= Half(32)) && cpu.Read().pf == EvenLowByte(r)
    ensures cpu.Read().of == SbbOverflow(x, y, Carry(old(cpu.Read())), 32) && OtherBitsKept(old(cpu.eflags), cpu.eflags)
  {
    var borrow := if cpu.Read().cf then 1 else 0;
    r := Sub32(Sub32(x, y), borrow);
    SbbResult(x, y, borrow);
    cpu.SetSbbFlagsN(x, y, borrow, r, 32);
  }

  // ---------------------------------------------------------------- chains of instructions

  /** ADD of the lowest limbs, then ADC of each further pair: the flags are left as the carry is passed
      on. */
  method RunAddChain(cpu: FlagUnit, a: seq<u32>, b: seq<u32>) returns (r: seq<u32>)
    requires |a| == |b| > 0
    modifies cpu
    ensures Out(r, cpu.Read()) == AddChain(a, b, 0)
    ensures Value(r) + (if cpu.Read().cf then Pow(|a|) else 0) == Value(a) + Value(b)
    ensures cpu.Read().of <==> !(-Pow(|a|) <= 2 * (SignedValue(a) + SignedValue(b)) < Pow(|a|))
  {
    var d := AddInstruction(cpu, a[0], b[0]);
    r := [d];
    AddStart(a, b);
    for i := 1 to |a|
      invariant |r| == i && AddChain(a[..i], b[..i], 0) == Out(r, cpu.Read())
    {
      AddMore(a, b, 0, i);
      d := AdcInstruction(cpu, a[i], b[i]);
      r := r + [d];
    }
    assert a[..|a|] == a && b[..|b|] == b;
    AddChainExact(a, b, 0);
    AddChainOverflow(a, b, 0);
  }

  lemma Unchanged(z: u32)
    ensures Add32(z, 0) == z && Sub32(z, 0) == z
  {
  }

  lemma NoCarryIn(x: u32, y: u32)
    ensures Add32(Add32(x, y), 0) == Add32(x, y) && Sub32(Sub32(x, y), 0) == Sub32(x, y)
    ensures BorrowOut(x, y, 0) == Carry(SubMeaning(x, y, 32))
  {
    Unchanged(Add32(x, y));
    Unchanged(Sub32(x, y));
    Unchanged(y);
    hide Add32, Sub32;
  }

  lemma AddStart(a: seq<u32>, b: seq<u32>)
    requires |a| == |b| > 0
    ensures AddChain(a[..1], b[..1], 0) == Out([Add32(a[0], b[0])], AddMeaning(a[0], b[0], 0, 32))
  {
    NoCarryIn(a[0], b[0]);
    hide Add32, Sub32, AddMeaning, SubMeaning, BorrowOut;
  }

  /** One more limb at the top of the chain. */
  lemma {:induction false} AddMore(a: seq<u32>, b: seq<u32>, c: nat, i: nat)
    requires |a| == |b| && 0 < i < |a| && c <= 1
    ensures var low := AddChain(a[..i], b[..i], c);
            var k := Carry(low.flags);
            AddChain(a[..i + 1], b[..i + 1], c)
              == Out(low.limbs + [Add32(Add32(a[i], b[i]), k)], AddMeaning(a[i], b[i], k, 32))
  {
    hide Add32, AddMeaning;
    var f := AddMeaning(a[0], b[0], c, 32);
    assert a[..i][1..] == a[1..][..i - 1] && b[..i][1..] == b[1..][..i - 1];
    assert a[..i + 1][1..] == a[1..][..i] && b[..i + 1][1..] == b[1..][..i];
    if i == 1 {
      assert AddChain(a[1..][..1], b[1..][..1], Carry(f))
             == Out([Add32(Add32(a[1], b[1]), Carry(f))], AddMeaning(a[1], b[1], Carry(f), 32));
    } else {
      AddMore(a[1..], b[1..], Carry(f), i - 1);
    }
  }

  /** SUB of the lowest limbs, then SBB of each further pair. */
  method RunSubChain(cpu: FlagUnit, a: seq<u32>, b: seq<u32>) returns (r: seq<u32>)
    requires |a| == |b| > 0
    modifies cpu
    ensures (r, Carry(cpu.Read())) == SubChain(a, b, 0)
    ensures Value(r) - (if cpu.Read().cf then Pow(|a|) else 0) == Value(a) - Value(b) <==> NoneLost(a, b, 0)
  {
    var d := SubInstruction(cpu, a[0], b[0]);
    r := [d];
    SubStart(a, b);
    for i := 1 to |a|
      invariant |r| == i && SubChain(a[..i], b[..i], 0) == (r, Carry(cpu.Read()))
    {
      SubMore(a, b, 0, i);
      d := SbbInstruction(cpu, a[i], b[i]);
      r := r + [d];
    }
    assert a[..|a|] == a && b[..|b|] == b;
    SubChainCorrectIff(a, b, 0);
  }

  lemma SubOne(x: u32, y: u32, c: nat)
    requires c <= 1
    ensures SubChain([x], [y], c) == ([Sub32(Sub32(x, y), c)], BorrowOut(x, y, c))
  {
    hide Sub32, BorrowOut;
    var xs, ys: seq<u32> := [x], [y];
    assert xs[1..] == [] && ys[1..] == [];
    var d := Sub32(Sub32(x, y), c);
    assert [d] + [] == [d];
  }

  lemma SubStart(a: seq<u32>, b: seq<u32>)
    requires |a| == |b| > 0
    ensures SubChain(a[..1], b[..1], 0) == ([Sub32(a[0], b[0])], Carry(SubMeaning(a[0], b[0], 32)))
  {
    NoCarryIn(a[0], b[0]);
    SubOne(a[0], b[0], 0);
    hide SubChain, Sub32, SubMeaning, BorrowOut, Carry;
    assert a[..1] == [a[0]] && b[..1] == [b[0]];
  }

  lemma {:induction false} SubMore(a: seq<u32>, b: seq<u32>, c: nat, i: nat)
    requires |a| == |b| && i < |a| && c <= 1
    ensures var low := SubChain(a[..i], b[..i], c);
            SubChain(a[..i + 1], b[..i + 1], c)
              == (low.0 + [Sub32(Sub32(a[i], b[i]), low.1)], BorrowOut(a[i], b[i], low.1))
  {
    hide Sub32, BorrowOut;
    if i == 0 {
      SubOne(a[0], b[0], c);
      assert a[..1] == [a[0]] && b[..1] == [b[0]];
      var d, none: seq<u32> := Sub32(Sub32(a[0], b[0]), c), [];
      assert a[..0] == none && b[..0] == none && SubChain(none, none, c) == (none, c);
      assert none + [d] == [d];
    } else {
      assert a[..i][1..] == a[1..][..i - 1] && b[..i][1..] == b[1..][..i - 1];
      assert a[..i + 1][1..] == a[1..][..i] && b[..i + 1][1..] == b[1..][..i];
      SubMore(a[1..], b[1..], BorrowOut(a[0], b[0], c), i - 1);
      var d, high := Sub32(Sub32(a[0], b[0]), c), SubChain(a[1..][..i - 1], b[1..][..i - 1], BorrowOut(a[0], b[0], c));
      var top := Sub32(Sub32(a[i], b[i]), high.1);
      assert SubChain(a[..i], b[..i], c) == ([d] + high.0, high.1);
      assert [d] + (high.0 + [top]) == ([d] + high.0) + [top];
    }
  }
}
