/** The arithmetic flags of the CPU: how the setters compute them from bits, and what they mean. */
module Flags {
  import opened Words
  import opened Bits

  /** Operand sizes of the instruction set. */
  type Width = n: nat | n == 8 || n == 16 || n == 32 witness 8

  function Modulus(n: Width): nat {
    if n == 8 then 0x100 else if n == 16 then 0x1_0000 else 0x1_0000_0000
  }

  /** The weight of the sign bit. */
  function Half(n: Width): nat { Modulus(n) / 2 }

  function Signed(x: int, n: Width): int { if x < Half(n) then x else x - Modulus(n) }

  predicate InRange(v: int, n: Width) { 0 <= v + Half(n) < Modulus(n) }

  predicate EvenLowByte(x: nat) { PopCount(x % 0x100) % 2 == 0 }

  datatype FlagSet = FlagSet(cf: bool, pf: bool, zf: bool, sf: bool, of: bool)

  /** What the flags say about `a + b + carry`. */
  function AddMeaning(a: nat, b: nat, carry: nat, n: Width): FlagSet {
    var r := (a + b + carry) % Modulus(n);
    FlagSet(a + b + carry >= Modulus(n), EvenLowByte(r), r == 0, r >= Half(n),
            !InRange(Signed(a, n) + Signed(b, n) + carry, n))
  }

  /** What the flags say about `a - b`. */
  function SubMeaning(a: nat, b: nat, n: Width): FlagSet {
    var r := (a - b) % Modulus(n);
    FlagSet(a < b, EvenLowByte(r), r == 0, r >= Half(n), !InRange(Signed(a, n) - Signed(b, n), n))
  }

  // ---------------------------------------------------------------- bit tests

  lemma HalfIsPow2(n: Width)
    ensures Half(n) == Pow2(n - 1) && Modulus(n) == 2 * Half(n)
  {
    Pow2Values();
  }

  /** Masking with the sign bit tests the upper half. */
  lemma SignTest(x: nat, n: Width)
    requires x < Modulus(n)
    ensures Bit(x, n - 1) <==> x >= Half(n)
  {
    HalfIsPow2(n);
    TopBit(x, n - 1);
  }

  lemma MaskTest(x: nat, n: Width)
    ensures And(x, Half(n)) != 0 <==> Bit(x, n - 1)
  {
    HalfIsPow2(n);
    AndPow2(x, n - 1);
  }

  /** `(a ^ b) & (a ^ r) & sign`: both differ from `a` in the sign. */
  lemma DifferTest(a: nat, b: nat, r: nat, n: Width)
    requires a < Modulus(n) && b < Modulus(n) && r < Modulus(n)
    ensures And(And(Xor(a, b), Xor(a, r)), Half(n)) != 0
       <==> (a >= Half(n)) != (b >= Half(n)) && (a >= Half(n)) != (r >= Half(n))
    ensures And(Xor(a, b), Half(n)) != 0 <==> (a >= Half(n)) != (b >= Half(n))
  {
    MaskTest(And(Xor(a, b), Xor(a, r)), n);
    MaskTest(Xor(a, b), n);
    AndBit(Xor(a, b), Xor(a, r), n - 1);
    XorBit(a, b, n - 1);
    XorBit(a, r, n - 1);
    SignTest(a, n);
    SignTest(b, n);
    SignTest(r, n);
  }

  lemma {:induction false} NotBit(x: nat, k: nat, m: nat)
    requires x < Pow2(m) && k < m
    ensures Bit(Pow2(m) - 1 - x, k) <==> !Bit(x, k)
  {
    if k > 0 {
      NotBit(x / 2, k - 1, m - 1);
      assert (Pow2(m) - 1 - x) / 2 == Pow2(m - 1) - 1 - x / 2;
    }
  }

  lemma {:induction false} XorBound(x: nat, y: nat, k: nat)
    requires x < Pow2(k) && y < Pow2(k)
    ensures Xor(x, y) < Pow2(k)
  {
    if x != 0 && y != 0 { XorBound(x / 2, y / 2, k - 1); }
  }

  /** `^x` on 32 bits. */
  function Not32(x: nat): int { 0xffff_ffff - x }

  /** `^(a ^ b) & (a ^ r) & sign`: `a` and `b` agree in the sign and `r` differs. */
  lemma AgreeTest(a: u32, b: u32, r: u32, n: Width)
    requires a < Modulus(n) && b < Modulus(n) && r < Modulus(n)
    ensures Not32(Xor(a, b)) >= 0
    ensures And(And(Not32(Xor(a, b)), Xor(a, r)), Half(n)) != 0
       <==> (a >= Half(n)) == (b >= Half(n)) && (a >= Half(n)) != (r >= Half(n))
  {
    AgreeBit(a, b, r, n);
    SignTest(a, n);
    SignTest(b, n);
    SignTest(r, n);
  }

  lemma AgreeBit(a: u32, b: u32, r: nat, n: Width)
    ensures Not32(Xor(a, b)) >= 0
    ensures And(And(Not32(Xor(a, b)), Xor(a, r)), Half(n)) != 0
       <==> Bit(a, n - 1) == Bit(b, n - 1) && Bit(a, n - 1) != Bit(r, n - 1)
  {
    Pow2Values();
    XorBound(a, b, 32);
    var x := Not32(Xor(a, b));
    NotBit(Xor(a, b), n - 1, 32);
    MaskTest(And(x, Xor(a, r)), n);
    AndBit(x, Xor(a, r), n - 1);
    XorBit(a, b, n - 1);
    XorBit(a, r, n - 1);
  }

  /** The five flags as they stand in EFLAGS. */
  function Unpack(eflags: nat): FlagSet {
    FlagSet(Bit(eflags, 0), Bit(eflags, 2), Bit(eflags, 6), Bit(eflags, 7), Bit(eflags, 11))
  }

  ghost predicate OtherBitsKept(x: nat, y: nat) {
    forall k: nat :: k !in {0, 2, 6, 7, 11} ==> Bit(x, k) == Bit(y, k)
  }

  /** `^(a ^ b) & (a ^ r) & sign` is the signed overflow of an addition. */
  lemma AddOverflow(a: u32, b: u32, carry: u32, n: Width)
    requires a < Modulus(n) && b < Modulus(n) && carry <= 1
    ensures var r := (a + b + carry) % Modulus(n);
            && Not32(Xor(a, b)) >= 0
            && (And(And(Not32(Xor(a, b)), Xor(a, r)), Half(n)) != 0
                <==> !InRange(Signed(a, n) + Signed(b, n) + carry, n))
            && (And(And(Not32(Xor(a, b)), Xor(a, r)), Half(n)) != 0
                <== And(Xor(a, b), Half(n)) == 0 && And(Xor(a, r), Half(n)) != 0)
  {
    var r := (a + b + carry) % Modulus(n);
    AddWraps(a, b, carry, n);
    AgreeTest(a, b, r, n);
    DifferTest(a, b, r, n);
    DifferTest(a, r, r, n);
  }

  /** The overflow test of ADC: the one of ADD, or the same test made again when a carry comes in. */
  predicate AdcOverflow(a: u32, b: u32, carry: nat, res: nat, sign: nat) {
    || (Not32(Xor(a, b)) >= 0 && And(And(Not32(Xor(a, b)), Xor(a, res)), sign) != 0)
    || (carry != 0 && And(Xor(a, b), sign) == 0 && And(Xor(a, res), sign) != 0)
  }

  lemma AdcOverflowExact(a: u32, b: u32, carry: u32, n: Width)
    requires a < Modulus(n) && b < Modulus(n) && carry <= 1
    ensures AdcOverflow(a, b, carry, (a + b + carry) % Modulus(n), Half(n))
       <==> !InRange(Signed(a, n) + Signed(b, n) + carry, n)
  {
    AddOverflow(a, b, carry, n);
  }

  /** A sum of two operands wraps at most once, and overflows when operands of one sign give the other. */
  lemma AddWraps(a: nat, b: nat, carry: nat, n: Width)
    requires a < Modulus(n) && b < Modulus(n) && carry <= 1
    ensures var sum := a + b + carry; var r := sum % Modulus(n);
            && r == (if sum < Modulus(n) then sum else sum - Modulus(n))
            && ((a >= Half(n)) == (b >= Half(n)) && (a >= Half(n)) != (r >= Half(n))
                <==> !InRange(Signed(a, n) + Signed(b, n) + carry, n))
  {
    if n == 8 {} else if n == 16 {} else {}
  }

  /** A difference wraps at most once, and overflows when the signs differ and the result leaves the
      sign of the minuend. */
  lemma SubWraps(a: nat, b: nat, n: Width)
    requires a < Modulus(n) && b < Modulus(n)
    ensures var r := (a - b) % Modulus(n);
            && r == (if a >= b then a - b else a - b + Modulus(n))
            && ((a >= Half(n)) != (b >= Half(n)) && (a >= Half(n)) != (r >= Half(n))
                <==> !InRange(Signed(a, n) - Signed(b, n), n))
  {
    if n == 8 {} else if n == 16 {} else {}
  }

  /** `(a ^ b) & (a ^ r) & sign` is the signed overflow of a subtraction. */
  lemma SubOverflow(a: u32, b: u32, n: Width)
    requires a < Modulus(n) && b < Modulus(n)
    ensures var r := (a - b) % Modulus(n);
            And(And(Xor(a, b), Xor(a, r)), Half(n)) != 0 <==> !InRange(Signed(a, n) - Signed(b, n), n)
  {
    var r := (a - b) % Modulus(n);
    SubWraps(a, b, n);
    DifferTest(a, b, r, n);
  }

  const FLAGS_MASK: nat := 0x8c5  // OF, SF, ZF, PF, CF

  class FlagUnit {
    var eflags: u32

    function Read(): FlagSet
      reads this
    {
      Unpack(eflags)
    }

    /** Clears the five flags and sets the given ones; every other bit of EFLAGS is kept. */
    method Store(f: FlagSet)
      modifies this
      ensures Read() == f
      ensures OtherBitsKept(old(eflags), eflags)
    {
      AndNotBound(eflags, FLAGS_MASK);
      ghost var before := eflags;
      eflags := AndNot(eflags, FLAGS_MASK);
      forall k: nat ensures Bit(eflags, k) <==> Bit(before, k) && !Bit(FLAGS_MASK, k) {
        AndNotBit(before, FLAGS_MASK, k);
      }
      MaskBits();
      SetIf(f.cf, 0);
      SetIf(f.zf, 6);
      SetIf(f.sf, 7);
      SetIf(f.of, 11);
      SetIf(f.pf, 2);
    }

    method SetIf(on: bool, k: nat)
      requires k < 32
      modifies this
      ensures forall j: nat :: Bit(eflags, j) <==> old(Bit(eflags, j)) || (on && j == k)
    {
      if on {
        ghost var before := eflags;
        Pow2Values();
        Pow2Less(k, 32);
        OrBound(eflags, Pow2(k), 32);
        eflags := Or(eflags, Pow2(k));
        forall j: nat ensures Bit(eflags, j) <==> Bit(before, j) || j == k {
          OrBit(before, Pow2(k), j);
          Pow2Bit(k, j);
        }
      }
    }

    /** Counts the set bits of the low byte by dropping the lowest one at a time. */
    method EvenParity(value: u32) returns (even: bool)
      ensures even <==> EvenLowByte(value)
    {
      var b: nat := value % 0x100;
      var count := 0;
      while b != 0
        invariant count + PopCount(b) == PopCount(value % 0x100)
        decreases b
      {
        count := count + 1;
        DropLowest(b);
        b := And(b, b - 1);
      }
      even := count % 2 == 0;
    }

    method SetAddFlags(a: u32, b: u32, result: u32)
      requires result == Add32(a, b)
      modifies this
      ensures Read() == AddMeaning(a, b, 0, 32)
      ensures OtherBitsKept(old(eflags), eflags)
    {
      var n: Width := 32;
      AddOverflow(a, b, 0, n);
      AddWraps(a, b, 0, n);
      var sign := Half(n);
      var parity := EvenParity(result);
      Store(FlagSet(result < a, parity, result == 0, result >= sign,
                    And(And(Not32(Xor(a, b)), Xor(a, result)), sign) != 0));
    }

    /** ADD and ADC at every width; the carry is 0 for ADD. */
    method SetAdcFlagsN(a: u32, b: u32, carry: u32, n: Width)
      requires a < Modulus(n) && b < Modulus(n) && carry <= 1
      modifies this
      ensures Read() == AddMeaning(a, b, carry, n)
      ensures OtherBitsKept(old(eflags), eflags)
    {
      var sum := a + b + carry;
      var res := sum % Modulus(n);
      var sign := Half(n);
      var parity := EvenParity(res);
      var overflow := AdcOverflow(a, b, carry, res, sign);
      AdcOverflowExact(a, b, carry, n);
      Store(FlagSet(sum > Modulus(n) - 1, parity, res == 0, res >= sign, overflow));
    }

    /** SUB and CMP at every width. */
    method SetSubFlagsN(a: u32, b: u32, result: u32, n: Width)
      requires a < Modulus(n) && b < Modulus(n) && result % Modulus(n) == (a - b) % Modulus(n)
      modifies this
      ensures Read() == SubMeaning(a, b, n)
      ensures OtherBitsKept(old(eflags), eflags)
    {
      var res := result % Modulus(n);
      SubOverflow(a, b, n);
      var parity := EvenParity(res);
      Store(FlagSet(a < b, parity, res == 0, res >= Half(n), And(And(Xor(a, b), Xor(a, res)), Half(n)) != 0));
    }

    /** SBB.  The borrow is added to the subtrahend in 32 bits, so it is lost for 0xffffffff. */
    method SetSbbFlagsN(a: u32, b: u32, borrow: u32, result: u32, n: Width)
      requires a < Modulus(n) && b < Modulus(n) && borrow <= 1
      requires result % Modulus(n) == (a - b - borrow) % Modulus(n)
      modifies this
      ensures var r := (a - b - borrow) % Modulus(n);
              Read().zf == (r == 0) && Read().sf == (r >= Half(n)) && Read().pf == EvenLowByte(r)
      ensures Read().cf == SbbBorrow(a, b, borrow) && Read().of == SbbOverflow(a, b, borrow, n)
      ensures OtherBitsKept(old(eflags), eflags)
    {
      var subtrahend := Add32(b, borrow);
      var res := result % Modulus(n);
      SbbOverflowTest(a, b, borrow, n);
      var parity := EvenParity(res);
      Store(FlagSet(a < subtrahend, parity, res == 0, res >= Half(n),
                    And(And(Xor(a, subtrahend), Xor(a, res)), Half(n)) != 0));
    }
  }

  lemma MaskBits()
    ensures forall k: nat :: Bit(FLAGS_MASK, k) <==> k in {0, 2, 6, 7, 11}
  {
    forall k: nat ensures Bit(FLAGS_MASK, k) <==> k in {0, 2, 6, 7, 11} {
      if k >= 12 { ShiftedOut(FLAGS_MASK, k, 12); }
    }
  }

  lemma {:induction false} ShiftedOut(x: nat, k: nat, m: nat)
    requires x < Pow2(m) && m <= k
    ensures !Bit(x, k)
  {
    if m > 0 { ShiftedOut(x / 2, k - 1, m - 1); } else { ZeroBit(k); }
  }

  /** The sixteen conditions, by number. */
  function Holds(f: FlagSet, op: nat): bool {
    match op
    case 0 => f.of
    case 1 => !f.of
    case 2 => f.cf
    case 3 => !f.cf
    case 4 => f.zf
    case 5 => !f.zf
    case 6 => f.cf || f.zf
    case 7 => !f.cf && !f.zf
    case 8 => f.sf
    case 9 => !f.sf
    case 10 => f.pf
    case 11 => !f.pf
    case 12 => f.sf != f.of
    case 13 => f.sf == f.of
    case 14 => f.zf || f.sf != f.of
    case 15 => !f.zf && f.sf == f.of
    case _ => false
  }

  /** After a compare, each condition holds exactly when the relation it is named after does. */
  lemma ConditionsAfterCompare(a: nat, b: nat, n: Width)
    requires a < Modulus(n) && b < Modulus(n)
    ensures var f := SubMeaning(a, b, n); var s, t := Signed(a, n), Signed(b, n);
            && (Holds(f, 2) <==> a < b) && (Holds(f, 3) <==> a >= b)
            && (Holds(f, 6) <==> a <= b) && (Holds(f, 7) <==> a > b)
            && (Holds(f, 4) <==> a == b) && (Holds(f, 5) <==> a != b)
            && (Holds(f, 12) <==> s < t) && (Holds(f, 13) <==> s >= t)
            && (Holds(f, 14) <==> s <= t) && (Holds(f, 15) <==> s > t)
            && (Holds(f, 0) <==> !InRange(s - t, n)) && (Holds(f, 1) <==> InRange(s - t, n))
  {
    SubWraps(a, b, n);
  }

  predicate SbbBorrow(a: u32, b: u32, borrow: u32) { a < Add32(b, borrow) }

  /** The borrow out of SBB is right exactly when the subtrahend and borrow do not wrap around. */
  lemma SbbBorrowExact(a: u32, b: u32, borrow: u32)
    requires borrow <= 1
    ensures (SbbBorrow(a, b, borrow) <==> a < b + borrow) <==> !(b == 0xffff_ffff && borrow == 1)
  {
  }

  /** The signed overflow of subtracting the wrapped sum of subtrahend and borrow. */
  predicate SbbOverflow(a: u32, b: u32, borrow: u32, n: Width)
    requires borrow <= 1
  {
    !InRange(Signed(a, n) - Signed((b + borrow) % Modulus(n), n), n)
  }

  lemma SumWraps(b: u32, borrow: u32, n: Width)
    requires b < Modulus(n) && borrow <= 1
    ensures (b + borrow) % Modulus(n) == if b + borrow < Modulus(n) then b + borrow else 0
    ensures Add32(b, borrow) == if b + borrow < Modulus(n) then b + borrow else if n == 32 then 0 else 2 * Half(n)
  {
    if n == 8 {} else if n == 16 {} else {}
  }

  /** The sign bit of the sum of subtrahend and borrow, which may have one bit too many. */
  lemma SumSign(b: u32, borrow: u32, n: Width)
    requires b < Modulus(n) && borrow <= 1
    ensures Bit(Add32(b, borrow), n - 1) <==> (b + borrow) % Modulus(n) >= Half(n)
  {
    SumWraps(b, borrow, n);
    HalfIsPow2(n);
    hide Bit, Pow2, Add32;
    if b + borrow < Modulus(n) {
      SignTest(b + borrow, n);
    } else if n == 32 {
      ZeroBit(n - 1);
    } else {
      NextPow2(n);
      Pow2Bit(n, n - 1);
    }
  }

  lemma NextPow2(n: Width)
    ensures Pow2(n) == 2 * Pow2(n - 1)
  {
  }

  lemma SbbWraps(a: u32, b: u32, borrow: u32, n: Width)
    requires a < Modulus(n) && b < Modulus(n) && borrow <= 1
    ensures (a - b - borrow) % Modulus(n) == (a - (b + borrow) % Modulus(n)) % Modulus(n)
  {
    SumWraps(b, borrow, n);
    if n == 8 {} else if n == 16 {} else {}
  }

  lemma SbbOverflowTest(a: u32, b: u32, borrow: u32, n: Width)
    requires a < Modulus(n) && b < Modulus(n) && borrow <= 1
    ensures var s, r := Add32(b, borrow), (a - b - borrow) % Modulus(n);
            And(And(Xor(a, s), Xor(a, r)), Half(n)) != 0 <==> SbbOverflow(a, b, borrow, n)
  {
    SbbWraps(a, b, borrow, n);
    var w := (b + borrow) % Modulus(n);
    SubWraps(a, w, n);
    SumSign(b, borrow, n);
    SignsDiffer(a, Add32(b, borrow), (a - b - borrow) % Modulus(n), n);
    hide And, Xor, Bit, Add32, InRange, Signed;
  }

  lemma SignsDiffer(a: nat, s: nat, r: nat, n: Width)
    requires a < Modulus(n) && r < Modulus(n)
    ensures And(And(Xor(a, s), Xor(a, r)), Half(n)) != 0
            <==> (a >= Half(n)) != Bit(s, n - 1) && (a >= Half(n)) != (r >= Half(n))
  {
    hide And, Xor, Bit;
    MaskTest(And(Xor(a, s), Xor(a, r)), n);
    AndBit(Xor(a, s), Xor(a, r), n - 1);
    XorBit(a, s, n - 1);
    XorBit(a, r, n - 1);
    SignTest(a, n);
    SignTest(r, n);
  }

  /** The overflow flag of SBB is right exactly when the borrow does not turn the largest positive
      subtrahend into the most negative number; there it is always wrong. */
  lemma SbbOverflowExact(a: u32, b: u32, borrow: u32, n: Width)
    requires a < Modulus(n) && b < Modulus(n) && borrow <= 1
    ensures (SbbOverflow(a, b, borrow, n) <==> !InRange(Signed(a, n) - Signed(b, n) - borrow, n))
       <==> !(b == Half(n) - 1 && borrow == 1)
  {
    SumWraps(b, borrow, n);
    HalfIsPow2(n);
    assert Half(n) >= 0x80;
    hide Half, Modulus, Pow2;
  }
}
