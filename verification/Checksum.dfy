/** posixChecksum of internal/commands/utility.go against the definition of cksum in POSIX.1-2017, Shell and
    Utilities: the complement of a remainder of polynomials over GF(2). */
module Checksum {

  // ------------------------------------------------- polynomials over GF(2)

  /** The exponents with coefficient one. */
  type Poly = set<nat>

  function Plus(p: Poly, q: Poly): Poly {
    (p - q) + (q - p)
  }

  /** Multiplication by x^k. */
  function Raised(p: Poly, k: nat): Poly {
    set e | e in p :: e + k
  }

  /** Bits as a polynomial, highest exponent first. */
  function Of(bits: seq<bool>): Poly {
    set i | 0 <= i < |bits| && bits[i] :: |bits| - 1 - i
  }

  /** The product of two polynomials, the first one given by its bits. */
  function Times(bits: seq<bool>, p: Poly): Poly {
    if bits == [] then {}
    else Plus(if bits[0] then Raised(p, |bits| - 1) else {}, Times(bits[1..], p))
  }

  /** The generating polynomial of the standard. */
  const GENERATOR: Poly := {32, 26, 23, 22, 16, 12, 11, 10, 8, 7, 5, 4, 2, 1, 0}

  /** The remainder of p divided by the generator. */
  ghost predicate IsRemainder(p: Poly, r: Poly) {
    (forall e | e in r :: e < 32) && exists quotient :: p == Plus(Times(quotient, GENERATOR), r)
  }

  lemma RaisedIs(p: Poly, k: nat, e: nat)
    ensures e in Raised(p, k) <==> e >= k && e - k in p
  {
  }

  lemma RaisedPlus(p: Poly, q: Poly, k: nat)
    ensures Raised(Plus(p, q), k) == Plus(Raised(p, k), Raised(q, k))
  {
    forall e: nat ensures e in Raised(Plus(p, q), k) <==> e in Plus(Raised(p, k), Raised(q, k)) {
      RaisedIs(Plus(p, q), k, e);
      RaisedIs(p, k, e);
      RaisedIs(q, k, e);
    }
  }

  lemma PlusAssociative(p: Poly, q: Poly, r: Poly)
    ensures Plus(Plus(p, q), r) == Plus(p, Plus(q, r))
  {
  }

  lemma RaisedTwice(p: Poly, j: nat, k: nat)
    ensures Raised(Raised(p, j), k) == Raised(p, j + k)
  {
    forall e: nat ensures e in Raised(Raised(p, j), k) <==> e in Raised(p, j + k) {
      RaisedIs(Raised(p, j), k, e);
      RaisedIs(p, j + k, e);
      if e >= k {
        RaisedIs(p, j, e - k);
      }
    }
  }

  lemma OfIs(bits: seq<bool>, e: nat)
    ensures e in Of(bits) <==> e < |bits| && bits[|bits| - 1 - e]
  {
    if e < |bits| {
      assert |bits| - 1 - (|bits| - 1 - e) == e;
    }
  }

  lemma OfConcat(a: seq<bool>, b: seq<bool>)
    ensures Of(a + b) == Plus(Raised(Of(a), |b|), Of(b))
  {
    forall e: nat ensures e in Of(a + b) <==> e in Plus(Raised(Of(a), |b|), Of(b)) {
      OfIs(a + b, e);
      OfIs(b, e);
      RaisedIs(Of(a), |b|, e);
      if e >= |b| {
        OfIs(a, e - |b|);
      }
    }
  }

  function XorBits(a: seq<bool>, b: seq<bool>): (c: seq<bool>)
    requires |a| == |b|
    ensures |c| == |a| && forall i | 0 <= i < |a| :: c[i] == (a[i] != b[i])
  {
    seq(|a|, i requires 0 <= i < |a| => a[i] != b[i])
  }

  lemma OfXor(a: seq<bool>, b: seq<bool>)
    requires |a| == |b|
    ensures Of(XorBits(a, b)) == Plus(Of(a), Of(b))
  {
    forall e: nat ensures e in Of(XorBits(a, b)) <==> e in Plus(Of(a), Of(b)) {
      OfIs(XorBits(a, b), e);
      OfIs(a, e);
      OfIs(b, e);
    }
  }

  /** One more bit of a quotient. */
  lemma {:induction false} TimesAppend(bits: seq<bool>, last: bool, p: Poly)
    ensures Times(bits + [last], p) == Plus(Raised(Times(bits, p), 1), if last then p else {})
    decreases |bits|
  {
    if bits == [] {
      assert [last][1..] == [] && Raised(p, 0) == p;
      assert Times([last], p) == Plus(if last then p else {}, {});
    } else {
      TimesAppend(bits[1..], last, p);
      assert (bits + [last])[1..] == bits[1..] + [last];
      var head := if bits[0] then Raised(p, |bits| - 1) else {};
      RaisedPlus(head, Times(bits[1..], p), 1);
      RaisedTwice(p, |bits| - 1, 1);
      assert Raised({}, 1) == {};
    }
  }

  // ---------------------------------------------- the remainder is well-defined

  lemma {:induction false} TimesXor(a: seq<bool>, b: seq<bool>, p: Poly)
    requires |a| == |b|
    ensures Times(XorBits(a, b), p) == Plus(Times(a, p), Times(b, p))
    decreases |a|
  {
    if a != [] {
      TimesXor(a[1..], b[1..], p);
      assert XorBits(a, b)[1..] == XorBits(a[1..], b[1..]);
    }
  }

  lemma {:induction false} TimesPadded(zeros: nat, bits: seq<bool>, p: Poly)
    ensures Times(seq(zeros, _ => false) + bits, p) == Times(bits, p)
    decreases zeros
  {
    var padded := seq(zeros, _ => false) + bits;
    if zeros > 0 {
      assert padded[1..] == seq(zeros - 1, _ => false) + bits;
      TimesPadded(zeros - 1, bits, p);
    } else {
      assert padded == bits;
    }
  }

  lemma {:induction false} TimesDegree(bits: seq<bool>, e: nat)
    requires e in Times(bits, GENERATOR)
    ensures e < |bits| + 32
    decreases |bits|
  {
    if e in Times(bits[1..], GENERATOR) {
      TimesDegree(bits[1..], e);
    }
  }

  /** A product with the generator is zero or reaches x^32. */
  lemma {:induction false} TimesReaches(bits: seq<bool>)
    ensures Times(bits, GENERATOR) == {} || exists e :: e in Times(bits, GENERATOR) && e >= 32
    decreases |bits|
  {
    if bits != [] {
      if bits[0] {
        var top := |bits| - 1 + 32;
        RaisedIs(GENERATOR, |bits| - 1, top);
        if top in Times(bits[1..], GENERATOR) {
          TimesDegree(bits[1..], top);
        }
        assert top in Times(bits, GENERATOR);
      } else {
        TimesReaches(bits[1..]);
        assert Times(bits, GENERATOR) == Times(bits[1..], GENERATOR);
      }
    }
  }

  lemma PlusCancels(p: Poly, a: Poly, r: Poly, b: Poly, s: Poly)
    requires p == Plus(a, r) && p == Plus(b, s)
    ensures Plus(a, b) == Plus(r, s) && (Plus(r, s) == {} ==> r == s)
  {
    forall e: nat ensures e in Plus(a, b) <==> e in Plus(r, s) {
      assert e in p <==> (e in a) != (e in r);
      assert e in p <==> (e in b) != (e in s);
    }
    if Plus(r, s) == {} {
      forall e: nat ensures e in r <==> e in s { assert e !in Plus(r, s); }
    }
  }

  /** There is one remainder only. */
  lemma RemainderUnique(p: Poly, r: Poly, s: Poly)
    requires IsRemainder(p, r) && IsRemainder(p, s)
    ensures r == s
  {
    var a: seq<bool> :| p == Plus(Times(a, GENERATOR), r);
    var b: seq<bool> :| p == Plus(Times(b, GENERATOR), s);
    var n := if |a| < |b| then |b| else |a|;
    var x, y := seq(n - |a|, _ => false) + a, seq(n - |b|, _ => false) + b;
    TimesPadded(n - |a|, a, GENERATOR);
    TimesPadded(n - |b|, b, GENERATOR);
    TimesXor(x, y, GENERATOR);
    TimesReaches(XorBits(x, y));
    PlusCancels(p, Times(a, GENERATOR), r, Times(b, GENERATOR), s);
  }

  // ---------------------------------------------------------------- registers

  predicate Top(w: bv32) {
    w & 0x8000_0000 != 0
  }

  function Doubled(w: bv32): bv32 {
    w << 1
  }

  /** The n highest bits of a register, highest first. */
  function TopBits(w: bv32, n: nat): (bits: seq<bool>)
    ensures |bits| == n
    decreases n
  {
    if n == 0 then [] else [Top(w)] + TopBits(Doubled(w), n - 1)
  }

  function Bits(w: bv32): seq<bool> {
    TopBits(w, 32)
  }

  function ByteBits(v: bv8): seq<bool> {
    [v & 0x80 != 0, v & 0x40 != 0, v & 0x20 != 0, v & 0x10 != 0, v & 0x08 != 0, v & 0x04 != 0, v & 0x02 != 0,
      v & 0x01 != 0]
  }

  function Shifted(w: bv32, n: nat): bv32
    decreases n
  {
    if n == 0 then w else Shifted(Doubled(w), n - 1)
  }

  lemma TopBitsStep(w: bv32, n: nat)
    ensures TopBits(w, n + 1) == [Top(w)] + TopBits(Doubled(w), n) && TopBits(w, 0) == []
  {
  }

  lemma ShiftedStep(w: bv32, n: nat)
    ensures Shifted(w, n + 1) == Shifted(Doubled(w), n) && Shifted(w, 0) == w
  {
  }

  lemma {:induction false} TopBitsSplit(w: bv32, m: nat, n: nat)
    ensures TopBits(w, m + n) == TopBits(w, m) + TopBits(Shifted(w, m), n)
    decreases m
  {
    hide Top, Doubled;
    if m > 0 {
      TopBitsSplit(Doubled(w), m - 1, n);
    }
  }

  lemma {:induction false} ShiftedTwice(w: bv32, m: nat, n: nat)
    ensures Shifted(w, m + n) == Shifted(Shifted(w, m), n)
    decreases m
  {
    hide Doubled;
    if m > 0 {
      ShiftedTwice(Doubled(w), m - 1, n);
    }
  }

  function FourTimes(w: bv32): bv32 {
    Doubled(Doubled(Doubled(Doubled(w))))
  }

  lemma ShiftedFour(w: bv32)
    ensures Shifted(w, 4) == FourTimes(w)
  {
    hide Doubled, Shifted;
    var x := Doubled(w);
    var y := Doubled(x);
    var z := Doubled(y);
    ShiftedStep(w, 3);
    ShiftedStep(x, 2);
    ShiftedStep(y, 1);
    ShiftedStep(z, 0);
    ShiftedStep(Doubled(z), 0);
  }

  lemma ShiftedEight(w: bv32)
    ensures Shifted(w, 8) == FourTimes(FourTimes(w))
  {
    hide FourTimes;
    ShiftedFour(w);
    ShiftedFour(FourTimes(w));
    ShiftedTwice(w, 4, 4);
    hide Shifted;
  }

  lemma EightIs(w: bv32)
    ensures FourTimes(FourTimes(w)) == w << 8
  {
  }

  lemma EightFourTimes(w: bv32)
    ensures w << 8 << 8 << 8 << 8 == 0
  {
  }

  /** Thirty-two shifts empty a register. */
  lemma ShiftedOut(w: bv32)
    ensures Shifted(w, 32) == 0
  {
    var x := w << 8;
    var y := x << 8;
    var z := y << 8;
    ShiftedByEight(w);
    ShiftedByEight(x);
    ShiftedByEight(y);
    ShiftedByEight(z);
    hide Shifted;
    ShiftedTwice(w, 8, 24);
    ShiftedTwice(x, 8, 16);
    ShiftedTwice(y, 8, 8);
    EightFourTimes(w);
  }

  lemma ShiftedByEight(w: bv32)
    ensures Shifted(w, 8) == w << 8
  {
    hide FourTimes, Shifted;
    ShiftedEight(w);
    EightIs(w);
  }

  lemma TopOfZero()
    ensures !Top(0) && Doubled(0) == 0
  {
  }

  lemma BitsShift(w: bv32)
    ensures Bits(Doubled(w)) == Bits(w)[1..] + [false]
  {
    hide Top, Doubled, TopBits, Shifted;
    ShiftedOut(w);
    TopBitsSplit(Doubled(w), 31, 1);
    ShiftedStep(w, 31);
    TopBitsStep(w, 31);
    TopBitsStep(0, 0);
    TopBitsStep(Doubled(0), 0);
    TopOfZero();
  }

  predicate IsXor(a: bv32, b: bv32, c: bv32) {
    c == a ^ b
  }

  lemma ShiftXor(a: bv32, b: bv32, c: bv32)
    requires IsXor(a, b, c)
    ensures IsXor(Doubled(a), Doubled(b), Doubled(c)) && Top(c) == (Top(a) != Top(b))
  {
  }

  lemma XorFirst(x: bool, s: seq<bool>, y: bool, t: seq<bool>)
    requires |s| == |t|
    ensures XorBits([x] + s, [y] + t) == [x != y] + XorBits(s, t)
  {
  }

  lemma {:induction false} TopBitsXor(a: bv32, b: bv32, c: bv32, n: nat)
    requires IsXor(a, b, c)
    ensures TopBits(c, n) == XorBits(TopBits(a, n), TopBits(b, n))
    decreases n
  {
    hide Top, TopBits, Doubled, IsXor;
    var k := if n > 0 then n - 1 else 0;
    TopBitsStep(a, k);
    TopBitsStep(b, k);
    TopBitsStep(c, k);
    if n > 0 {
      ShiftXor(a, b, c);
      TopBitsXor(Doubled(a), Doubled(b), Doubled(c), k);
      hide XorBits;
      XorFirst(Top(a), TopBits(Doubled(a), k), Top(b), TopBits(Doubled(b), k));
    }
  }

  lemma {:induction false} TopBitsZero(n: nat)
    ensures TopBits(0, n) == seq(n, _ => false)
    decreases n
  {
    hide Top, Doubled;
    TopOfZero();
    if n > 0 {
      TopBitsZero(n - 1);
    }
  }

  lemma HighTops(v: bv8)
    ensures var w := (v as bv32) << 24;
      && Top(w) == (v & 0x80 != 0) && Top(Doubled(w)) == (v & 0x40 != 0)
      && Top(Doubled(Doubled(w))) == (v & 0x20 != 0) && Top(Doubled(Doubled(Doubled(w)))) == (v & 0x10 != 0)
  {
  }

  lemma LowTops(v: bv8)
    ensures var w := FourTimes((v as bv32) << 24);
      && Top(w) == (v & 0x08 != 0) && Top(Doubled(w)) == (v & 0x04 != 0)
      && Top(Doubled(Doubled(w))) == (v & 0x02 != 0) && Top(Doubled(Doubled(Doubled(w)))) == (v & 0x01 != 0)
      && FourTimes(w) == 0
  {
  }

  lemma FourBits(w: bv32, n: nat)
    ensures TopBits(w, n + 4) ==
      [Top(w), Top(Doubled(w)), Top(Doubled(Doubled(w))), Top(Doubled(Doubled(Doubled(w))))] + TopBits(FourTimes(w), n)
  {
    hide Top, TopBits, Doubled;
    var x := Doubled(w);
    var y := Doubled(x);
    var z := Doubled(y);
    TopBitsStep(w, n + 3);
    TopBitsStep(x, n + 2);
    TopBitsStep(y, n + 1);
    TopBitsStep(z, n);
  }

  lemma BitsByte(v: bv8)
    ensures Bits((v as bv32) << 24) == ByteBits(v) + seq(24, _ => false)
  {
    ByteOnTop((v as bv32) << 24, v);
  }

  lemma ByteOnTop(w: bv32, v: bv8)
    requires w == (v as bv32) << 24
    ensures Bits(w) == ByteBits(v) + seq(24, _ => false)
  {
    hide Top, TopBits, Doubled, FourTimes;
    FourBits(w, 28);
    FourBits(FourTimes(w), 24);
    HighTops(v);
    LowTops(v);
    TopBitsZero(24);
  }

  const POLYNOMIAL: bv32 := 0x04c1_1db7

  lemma Nibble(w: bv32, next: bv32, n: nat, a: bool, b: bool, c: bool, d: bool)
    requires Top(w) == a && Top(Doubled(w)) == b && Top(Doubled(Doubled(w))) == c
      && Top(Doubled(Doubled(Doubled(w)))) == d
    requires next == FourTimes(w)
    ensures TopBits(w, n + 4) == [a, b, c, d] + TopBits(next, n)
  {
    hide Top, TopBits, Doubled, FourTimes;
    FourBits(w, n);
  }

  lemma HighHalf()
    ensures Bits(POLYNOMIAL) ==
      [false, false, false, false, false, true, false, false,
       true, true, false, false, false, false, false, true] + TopBits(0x1db7_0000, 16)
  {
    hide TopBits;
    Nibble(0x04c1_1db7, 0x4c11_db70, 28, false, false, false, false);
    Nibble(0x4c11_db70, 0xc11d_b700, 24, false, true, false, false);
    Nibble(0xc11d_b700, 0x11db_7000, 20, true, true, false, false);
    Nibble(0x11db_7000, 0x1db7_0000, 16, false, false, false, true);
  }

  lemma LowHalf()
    ensures TopBits(0x1db7_0000, 16) ==
      [false, false, false, true, true, true, false, true,
       true, false, true, true, false, true, true, true]
  {
    hide TopBits;
    Nibble(0x1db7_0000, 0xdb70_0000, 12, false, false, false, true);
    Nibble(0xdb70_0000, 0xb700_0000, 8, true, true, false, true);
    Nibble(0xb700_0000, 0x7000_0000, 4, true, false, true, true);
    Nibble(0x7000_0000, 0, 0, false, true, true, true);
    TopBitsStep(0, 0);
  }

  /** The register constant stands for the generator without its leading term. */
  lemma PolynomialIs()
    ensures GENERATOR == Plus({32}, Of(Bits(POLYNOMIAL)))
  {
    HighHalf();
    LowHalf();
    hide Bits, TopBits;
    forall e: nat ensures e in GENERATOR <==> e in Plus({32}, Of(Bits(POLYNOMIAL))) {
      OfIs(Bits(POLYNOMIAL), e);
    }
  }

  /** A register is known by its polynomial. */
  lemma {:induction false} ZeroBits(w: bv32, n: nat)
    requires Shifted(w, n) == 0 && TopBits(w, n) == seq(n, _ => false)
    ensures w == 0
    decreases n
  {
    if n > 0 {
      assert TopBits(w, n)[0] == Top(w);
      var rest := TopBits(Doubled(w), n - 1);
      assert rest == TopBits(w, n)[1..] == seq(n - 1, _ => false);
      ZeroBits(Doubled(w), n - 1);
      TopOnly(w);
    }
  }

  lemma TopOnly(w: bv32)
    requires Doubled(w) == 0 && !Top(w)
    ensures w == 0
  {
  }

  lemma OfInjective(a: seq<bool>, b: seq<bool>)
    requires |a| == |b| && Of(a) == Of(b)
    ensures a == b && XorBits(a, b) == seq(|a|, _ => false)
  {
    forall i | 0 <= i < |a| ensures a[i] == b[i] {
      OfIs(a, |a| - 1 - i);
      OfIs(b, |b| - 1 - i);
    }
  }

  lemma BitsInjective(a: bv32, b: bv32)
    requires Of(Bits(a)) == Of(Bits(b))
    ensures a == b
  {
    TopBitsXor(a, b, a ^ b, 32);
    ShiftedOut(a ^ b);
    OfInjective(Bits(a), Bits(b));
    hide Top, TopBits, Shifted, XorBits;
    ZeroBits(a ^ b, 32);
    XorZero(a, b);
  }

  lemma XorZero(a: bv32, b: bv32)
    requires a ^ b == 0
    ensures a == b
  {
  }

  // ------------------------------------------------------------- the checksum

  function BitsOf(bytes: seq<bv8>): seq<bool> {
    if bytes == [] then [] else BitsOf(bytes[..|bytes| - 1]) + ByteBits(bytes[|bytes| - 1])
  }

  /** The octets of a length, least significant first, as many as it needs. */
  function LengthOctets(n: nat): seq<bv8> {
    if n == 0 then [] else [(n % 256) as bv8] + LengthOctets(n / 256)
  }

  /** The message of the standard: the octets of the file, then those of its length. */
  function Message(data: seq<bv8>): seq<bool> {
    BitsOf(data + LengthOctets(|data|))
  }

  /** Bitwise not. */
  function Complement(w: bv32): bv32 {
    w ^ 0xffff_ffff
  }

  lemma ComplementTwice(w: bv32)
    ensures Complement(Complement(w)) == w
  {
  }

  lemma ComplementIs(w: bv32)
    ensures w & Complement(w) == 0 && w | Complement(w) == 0xffff_ffff
  {
  }

  /** What the standard asks of the checksum. */
  ghost predicate IsChecksum(data: seq<bv8>, sum: bv32) {
    IsRemainder(Raised(Of(Message(data)), 32), Of(Bits(Complement(sum))))
  }

  lemma ChecksumUnique(data: seq<bv8>, s: bv32, t: bv32)
    requires IsChecksum(data, s) && IsChecksum(data, t)
    ensures s == t
  {
    RemainderUnique(Raised(Of(Message(data)), 32), Of(Bits(Complement(s))), Of(Bits(Complement(t))));
    BitsInjective(Complement(s), Complement(t));
    ComplementTwice(s);
    ComplementTwice(t);
  }

  /** The checksum of an empty file is 4294967295. */
  lemma EmptyChecksum()
    ensures forall sum :: IsChecksum([], sum) <==> sum == 4294967295
  {
    ZeroRegister();
    assert Complement(0xffff_ffff) == 0;
    RegisterBounded(0);
    assert [] + LengthOctets(0) == [];
    assert IsChecksum([], 0xffff_ffff);
    forall sum | IsChecksum([], sum) ensures sum == 0xffff_ffff { ChecksumUnique([], sum, 0xffff_ffff); }
  }

  lemma RegisterBounded(w: bv32)
    ensures forall e | e in Of(Bits(w)) :: e < 32
  {
  }

  function Stepped(w: bv32): bv32 {
    if Top(w) then Doubled(w) ^ POLYNOMIAL else Doubled(w)
  }

  lemma OfShifted(bits: seq<bool>, next: seq<bool>)
    requires |bits| == 32 && next == bits[1..] + [false]
    ensures Raised(Of(bits), 1) == Plus(if bits[0] then {32} else {}, Of(next))
  {
    forall e: nat ensures e in Raised(Of(bits), 1) <==> (e == 32 && bits[0]) || e in Of(next) {
      RaisedIs(Of(bits), 1, e);
      OfIs(next, e);
      if e >= 1 {
        OfIs(bits, e - 1);
      }
    }
    OfIs(next, 32);
  }

  lemma ShiftedPoly(w: bv32)
    ensures Raised(Of(Bits(w)), 1) == Plus(if Top(w) then {32} else {}, Of(Bits(Doubled(w))))
  {
    BitsShift(w);
    TopBitsStep(w, 31);
    hide TopBits, Top, Raised, Of, Plus;
    OfShifted(Bits(w), Bits(Doubled(w)));
  }

  lemma XorPoly(a: bv32, b: bv32)
    ensures Of(Bits(a ^ b)) == Plus(Of(Bits(a)), Of(Bits(b)))
  {
    TopBitsXor(a, b, a ^ b, 32);
    hide TopBits, Of, Plus, XorBits;
    OfXor(Bits(a), Bits(b));
  }

  lemma TakeOff(top: Poly, rest: Poly, constant: Poly)
    ensures Plus(top, rest) == Plus(Plus(top, constant), Plus(rest, constant))
  {
  }

  /** Shifting the register multiplies by x and takes the generator off when x^32 appears. */
  lemma SteppedIs(w: bv32)
    ensures Raised(Of(Bits(w)), 1) == Plus(if Top(w) then GENERATOR else {}, Of(Bits(Stepped(w))))
  {
    ShiftedPoly(w);
    PolynomialIs();
    hide Bits, Of, Raised, Plus, Top;
    if Top(w) {
      XorPoly(Doubled(w), POLYNOMIAL);
      TakeOff({32}, Of(Bits(Doubled(w))), Of(Bits(POLYNOMIAL)));
    }
  }

  /** One more step of the division. */
  lemma DivideStep(m: Poly, quotient: seq<bool>, w: bv32)
    requires m == Plus(Times(quotient, GENERATOR), Of(Bits(w)))
    ensures Raised(m, 1) == Plus(Times(quotient + [Top(w)], GENERATOR), Of(Bits(Stepped(w))))
  {
    SteppedIs(w);
    TimesAppend(quotient, Top(w), GENERATOR);
    RaisedPlus(Times(quotient, GENERATOR), Of(Bits(w)), 1);
    PlusAssociative(Raised(Times(quotient, GENERATOR), 1), if Top(w) then GENERATOR else {}, Of(Bits(Stepped(w))));
    hide Top, Bits, Stepped, Raised, Times, Of, Plus;
  }

  lemma BytePoly(bits: seq<bool>, zeros: seq<bool>)
    requires zeros == seq(24, _ => false)
    ensures Of(bits + zeros) == Raised(Of(bits), 24)
  {
    OfConcat(bits, zeros);
    assert Of(zeros) == {};
  }

  lemma MixPoly(m: Poly, quotient: seq<bool>, w: bv32, x: bv32, byte: seq<bool>)
    requires m == Plus(Times(quotient, GENERATOR), Of(Bits(w))) && Bits(x) == byte + seq(24, _ => false)
    ensures Plus(m, Raised(Of(byte), 24)) == Plus(Times(quotient, GENERATOR), Of(Bits(w ^ x)))
  {
    hide Bits, Of, Raised, Plus, Times;
    BytePoly(byte, seq(24, _ => false));
    XorPoly(w, x);
    PlusAssociative(Times(quotient, GENERATOR), Of(Bits(w)), Raised(Of(byte), 24));
  }

  /** Mixing a byte into the top of the register adds it at x^24. */
  lemma MixByte(m: Poly, quotient: seq<bool>, w: bv32, v: bv8)
    requires m == Plus(Times(quotient, GENERATOR), Of(Bits(w)))
    ensures Plus(m, Raised(Of(ByteBits(v)), 24)) == Plus(Times(quotient, GENERATOR), Of(Bits(w ^ ((v as bv32) << 24))))
  {
    hide Bits, Of, Raised, Plus, Times, ByteBits;
    BitsByte(v);
    MixPoly(m, quotient, w, (v as bv32) << 24, ByteBits(v));
  }

  lemma MessageGrows(bits: seq<bool>, v: bv8)
    ensures Raised(Of(bits + ByteBits(v)), 32) == Raised(Plus(Raised(Of(bits), 32), Raised(Of(ByteBits(v)), 24)), 8)
  {
    OfConcat(bits, ByteBits(v));
    RaisedPlus(Raised(Of(bits), 8), Of(ByteBits(v)), 32);
    RaisedTwice(Of(bits), 8, 32);
    RaisedPlus(Raised(Of(bits), 32), Raised(Of(ByteBits(v)), 24), 8);
    RaisedTwice(Of(bits), 32, 8);
    RaisedTwice(Of(ByteBits(v)), 24, 8);
  }

  /** The closure that takes one byte in; the quotient so far shows that the register holds a remainder. */
  method Update(crc: bv32, value: bv8, ghost bits: seq<bool>, ghost quotient: seq<bool>)
    returns (next: bv32, ghost longer: seq<bool>)
    requires Raised(Of(bits), 32) == Plus(Times(quotient, GENERATOR), Of(Bits(crc)))
    ensures Raised(Of(bits + ByteBits(value)), 32) == Plus(Times(longer, GENERATOR), Of(Bits(next)))
  {
    next, longer := crc ^ ((value as bv32) << 24), quotient;
    ghost var m := Plus(Raised(Of(bits), 32), Raised(Of(ByteBits(value)), 24));
    MixByte(Raised(Of(bits), 32), quotient, crc, value);
    MessageGrows(bits, value);
    hide Bits, ByteBits, Times;
    assert Raised(m, 0) == m;
    for k := 0 to 8
      invariant Raised(m, k) == Plus(Times(longer, GENERATOR), Of(Bits(next)))
    {
      DivideStep(Raised(m, k), longer, next);
      RaisedTwice(m, k, 1);
      longer := longer + [Top(next)];
      if next & 0x8000_0000 != 0 {
        next := (next << 1) ^ POLYNOMIAL;
      } else {
        next := next << 1;
      }
    }
  }

  /** The loop that takes the length in, least significant octet first. */
  method UpdateLength(crc: bv32, length: nat, ghost read: seq<bv8>, ghost quotient: seq<bool>)
    returns (next: bv32, ghost longer: seq<bool>)
    requires Raised(Of(BitsOf(read)), 32) == Plus(Times(quotient, GENERATOR), Of(Bits(crc)))
    ensures Raised(Of(BitsOf(read + LengthOctets(length))), 32) == Plus(Times(longer, GENERATOR), Of(Bits(next)))
  {
    hide Bits, ByteBits, TopBits, Times, Of, Raised, Plus;
    next, longer := crc, quotient;
    var rest: nat := length;
    ghost var taken := read;
    while rest != 0
      invariant Raised(Of(BitsOf(taken)), 32) == Plus(Times(longer, GENERATOR), Of(Bits(next)))
      invariant taken + LengthOctets(rest) == read + LengthOctets(length)
    {
      var value := (rest % 256) as bv8;
      next, longer := Update(next, value, BitsOf(taken), longer);
      assert (taken + [value])[..|taken|] == taken;
      taken := taken + [value];
      rest := rest / 256;
    }
    assert taken == read + LengthOctets(length);
  }

  method PosixChecksum(data: seq<bv8>) returns (sum: bv32)
    ensures IsChecksum(data, sum)
  {
    var crc: bv32 := 0;
    ghost var quotient: seq<bool> := [];
    ZeroRegister();
    hide Bits, ByteBits, TopBits, Times, Of, Raised, Plus;
    for k := 0 to |data|
      invariant Raised(Of(BitsOf(data[..k])), 32) == Plus(Times(quotient, GENERATOR), Of(Bits(crc)))
    {
      assert data[..k + 1][..k] == data[..k];
      crc, quotient := Update(crc, data[k], BitsOf(data[..k]), quotient);
    }
    assert data[..|data|] == data;
    crc, quotient := UpdateLength(crc, |data|, data, quotient);
    sum := Complement(crc);
    RegisterBounded(crc);
    ComplementTwice(crc);
  }

  lemma ZeroRegister()
    ensures Raised(Of(BitsOf([])), 32) == Plus(Times([], GENERATOR), Of(Bits(0)))
  {
    TopBitsZero(32);
    assert Of([]) == {} && Of(Bits(0)) == {};
  }
}
