/** 256-bit machine words as 32 big-endian bytes, and the limb loops that compute on them. */
module Words {
  import opened Base

  const LIMB: nat := 0x1_0000_0000_0000_0000
  const MODULUS: nat := 0x1_0000000000000000_0000000000000000_0000000000000000_0000000000000000

  type Word = w: seq<Byte> | |w| == 32 witness seq(32, _ => 0)
  type Limbs = l: seq<nat> | |l| == 4 && l[0] < LIMB && l[1] < LIMB && l[2] < LIMB && l[3] < LIMB witness [0, 0, 0, 0]

  function Zero(): Word {
    seq(32, _ => 0)
  }

  function One(): Word {
    seq(32, i => if i == 31 then 1 else 0)
  }

  // ----- bytes and numbers

  function Pow256(n: nat): (p: nat)
    ensures p > 0
  {
    if n == 0 then 1 else 256 * Pow256(n - 1)
  }

  /** The number written by big-endian bytes. */
  function Value(bytes: seq<Byte>): nat {
    if bytes == [] then 0 else Value(bytes[..|bytes| - 1]) * 256 + bytes[|bytes| - 1]
  }

  /** The low `len` bytes of n, big-endian. */
  function ToBytes(n: nat, len: nat): (bytes: seq<Byte>)
    ensures |bytes| == len
  {
    if len == 0 then [] else ToBytes(n / 256, len - 1) + [n % 256]
  }

  lemma {:induction false} ValueBound(bytes: seq<Byte>)
    ensures Value(bytes) < Pow256(|bytes|)
  {
    if bytes != [] {
      ValueBound(bytes[..|bytes| - 1]);
    }
  }

  lemma {:induction false} ToBytesValue(n: nat, len: nat)
    requires n < Pow256(len)
    ensures Value(ToBytes(n, len)) == n
  {
    if len > 0 {
      ToBytesValue(n / 256, len - 1);
    }
  }

  lemma {:induction false} ValueToBytes(bytes: seq<Byte>)
    ensures ToBytes(Value(bytes), |bytes|) == bytes
  {
    if bytes != [] {
      ValueToBytes(bytes[..|bytes| - 1]);
    }
  }

  lemma {:induction false} ValueConcat(a: seq<Byte>, b: seq<Byte>)
    ensures Value(a + b) == Value(a) * Pow256(|b|) + Value(b)
  {
    if b == [] {
      assert a + b == a;
    } else {
      var m := |b| - 1;
      ValueConcat(a, b[..m]);
      assert (a + b)[..|a + b| - 1] == a + b[..m];
      assert Value(a) * (256 * Pow256(m)) == 256 * (Value(a) * Pow256(m));
    }
  }

  lemma Pow256Facts()
    ensures Pow256(8) == LIMB && Pow256(32) == MODULUS && Pow256(16) == LIMB * LIMB && Pow256(24) == LIMB * LIMB * LIMB
  {
    assert Pow256(4) == 0x1_0000_0000;
    assert Pow256(8) == LIMB;
    assert Pow256(12) == 0x1_0000_0000 * LIMB;
    assert Pow256(16) == LIMB * LIMB;
    assert Pow256(20) == 0x1_0000_0000 * LIMB * LIMB;
    assert Pow256(24) == LIMB * LIMB * LIMB;
    assert Pow256(28) == 0x1_0000_0000 * LIMB * LIMB * LIMB;
    assert Pow256(32) == MODULUS;
  }

  /** Words and numbers below 2^256 are the same thing. */
  lemma WordRange(w: Word)
    ensures Value(w) < MODULUS
  {
    ValueBound(w);
    Pow256Facts();
  }

  function FromNat(n: nat): (w: Word)
    requires n < MODULUS
    ensures Value(w) == n
  {
    Pow256Facts();
    ToBytesValue(n, 32);
    ToBytes(n, 32)
  }

  lemma SameValueSameWord(a: Word, b: Word)
    requires Value(a) == Value(b)
    ensures a == b
  {
    ValueToBytes(a);
    ValueToBytes(b);
  }

  // ----- what the operations mean

  function Residue(n: int): (r: nat)
    ensures r < MODULUS
  {
    n % MODULUS
  }

  function Add(a: Word, b: Word): Word {
    FromNat(Residue(Value(a) + Value(b)))
  }

  function Sub(a: Word, b: Word): Word {
    FromNat(Residue(Value(a) - Value(b)))
  }

  predicate Lt(a: Word, b: Word) {
    Value(a) < Value(b)
  }

  /** Moving by a multiple of the modulus does not change the residue. */
  lemma ResidueOf(n: int, r: nat, turns: int)
    requires n == r + turns * MODULUS && r < MODULUS
    ensures Residue(n) == r
  {}

  lemma ResidueUndo(x: nat, y: nat)
    requires x < MODULUS && y < MODULUS
    ensures Residue(Residue(x + y) - y) == x
    ensures Residue(Residue(x - y) + y) == x
  {
    if x + y < MODULUS {
      ResidueOf(x + y, x + y, 0);
      ResidueOf(x, x, 0);
    } else {
      ResidueOf(x + y, x + y - MODULUS, 1);
      ResidueOf(x - MODULUS, x, -1);
    }
    if y <= x {
      ResidueOf(x - y, x - y, 0);
      ResidueOf(x, x, 0);
    } else {
      ResidueOf(x - y, x - y + MODULUS, -1);
      ResidueOf(x + MODULUS, x, 1);
    }
  }

  lemma SumValue(x: nat, y: nat, a: Word, b: Word, w: Word)
    requires x == Value(a) && y == Value(b) && w == Add(a, b)
    ensures Value(w) == Residue(x + y)
  {}

  lemma GapValue(x: int, y: int, a: Word, b: Word, w: Word)
    requires x == Value(a) && y == Value(b) && w == Sub(a, b)
    ensures Value(w) == Residue(x - y)
  {}

  lemma UndoValues(x: int, y: int, a: Word, b: Word, w: Word)
    requires x == Value(a) && y == Value(b)
    requires Value(w) == Residue(Residue(x + y) - y) || Value(w) == Residue(Residue(x - y) + y)
    ensures w == a
  {
    WordRange(a);
    WordRange(b);
    ResidueUndo(x, y);
    SameValueSameWord(w, a);
  }

  lemma AddThenSub(a: Word, b: Word)
    ensures Sub(Add(a, b), b) == a
  {
    var x, y, sum := Value(a), Value(b), Add(a, b);
    SumValue(x, y, a, b, sum);
    GapValue(Residue(x + y), y, sum, b, Sub(sum, b));
    UndoValues(x, y, a, b, Sub(sum, b));
  }

  lemma SubThenAdd(a: Word, b: Word)
    ensures Add(Sub(a, b), b) == a
  {
    var x: int, y: int, gap := Value(a), Value(b), Sub(a, b);
    GapValue(x, y, a, b, gap);
    SumValue(Residue(x - y), y, gap, b, Add(gap, b));
    UndoValues(x, y, a, b, Add(gap, b));
  }

  /** Subtraction undoes addition, and the other way round. */
  lemma AddSubInverse(a: Word, b: Word)
    ensures Sub(Add(a, b), b) == a
    ensures Add(Sub(a, b), b) == a
  {
    AddThenSub(a, b);
    SubThenAdd(a, b);
  }

  // ----- limbs

  /** The place value of limb i; limb 0 is the most significant. Place -1 is the carry out of the word. */
  function Weight(i: int): nat
    requires -1 <= i <= 3
  {
    if i == 3 then 1
    else if i == 2 then LIMB
    else if i == 1 then LIMB * LIMB
    else if i == 0 then LIMB * LIMB * LIMB
    else MODULUS
  }

  /** The value of limbs i..3. */
  function Tail(l: seq<nat>, i: nat): nat
    requires |l| == 4 && i <= 4
    decreases 4 - i
  {
    if i == 4 then 0 else l[i] * Weight(i) + Tail(l, i + 1)
  }

  function WordToLimbs(w: Word): (l: Limbs) {
    ValueBound(w[0..8]);
    ValueBound(w[8..16]);
    ValueBound(w[16..24]);
    ValueBound(w[24..32]);
    Pow256Facts();
    [Value(w[0..8]), Value(w[8..16]), Value(w[16..24]), Value(w[24..32])]
  }

  function LimbsToWord(l: Limbs): Word {
    ToBytes(l[0], 8) + ToBytes(l[1], 8) + ToBytes(l[2], 8) + ToBytes(l[3], 8)
  }

  lemma TailUnfolds(l: seq<nat>)
    requires |l| == 4
    ensures Tail(l, 0) == ((l[0] * LIMB + l[1]) * LIMB + l[2]) * LIMB + l[3]
  {
    assert Tail(l, 3) == l[3];
    assert Tail(l, 2) == l[2] * LIMB + l[3];
    assert Tail(l, 1) == l[1] * (LIMB * LIMB) + l[2] * LIMB + l[3];
  }

  lemma AppendLimb(a: seq<Byte>, b: seq<Byte>)
    requires |b| == 8
    ensures Value(a + b) == Value(a) * LIMB + Value(b)
  {
    ValueConcat(a, b);
    Pow256Facts();
  }

  lemma FourParts(p: seq<Byte>, q: seq<Byte>, r: seq<Byte>, s: seq<Byte>)
    requires |p| == |q| == |r| == |s| == 8
    ensures Value(p + q + r + s) == Tail([Value(p), Value(q), Value(r), Value(s)], 0)
  {
    var l := [Value(p), Value(q), Value(r), Value(s)];
    AppendLimb(p, q);
    AppendLimb(p + q, r);
    AppendLimb(p + q + r, s);
    TailUnfolds(l);
  }

  lemma WordToLimbsValue(w: Word)
    ensures Tail(WordToLimbs(w), 0) == Value(w)
  {
    FourParts(w[0..8], w[8..16], w[16..24], w[24..32]);
    assert w == w[0..8] + w[8..16] + w[16..24] + w[24..32];
  }

  lemma LimbsToWordValue(l: Limbs)
    ensures Value(LimbsToWord(l)) == Tail(l, 0)
  {
    Pow256Facts();
    ToBytesValue(l[0], 8);
    ToBytesValue(l[1], 8);
    ToBytesValue(l[2], 8);
    ToBytesValue(l[3], 8);
    FourParts(ToBytes(l[0], 8), ToBytes(l[1], 8), ToBytes(l[2], 8), ToBytes(l[3], 8));
    assert [l[0], l[1], l[2], l[3]] == l;
  }

  lemma TailFrame(l: seq<nat>, i: nat, k: nat, x: nat)
    requires |l| == 4 && k < i <= 4
    ensures Tail(l[k := x], i) == Tail(l, i)
    decreases 4 - i
  {}

  /** Limb sums with a carry from the least significant limb up. */
  method AddLimbs(x: Limbs, y: Limbs) returns (sums: Limbs, carry: nat)
    ensures Tail(sums, 0) + carry * MODULUS == Tail(x, 0) + Tail(y, 0)
  {
    sums, carry := [0, 0, 0, 0], 0;
    var i := 4;
    while i > 0
      invariant 0 <= i <= 4 && carry <= 1
      invariant Tail(sums, i) + carry * Weight(i - 1) == Tail(x, i) + Tail(y, i)
    {
      i := i - 1;
      var sum := x[i] + y[i] + carry;
      CarryStep(i, x[i], y[i], carry);
      TailFrame(sums, i + 1, i, sum % LIMB);
      sums := sums[i := sum % LIMB];
      carry := sum / LIMB;
    }
  }

  /** A limb sum splits into digit and carry at neighbouring places. */
  lemma CarryStep(i: nat, x: nat, y: nat, carry: nat)
    requires i < 4
    ensures var sum := x + y + carry;
            (sum % LIMB) * Weight(i) + (sum / LIMB) * Weight(i - 1) == x * Weight(i) + y * Weight(i) + carry * Weight(i)
  {
    var sum, w := x + y + carry, Weight(i);
    var digit, up := sum % LIMB, sum / LIMB;
    assert Weight(i - 1) == LIMB * w;
    calc {
      digit * w + up * (LIMB * w);
      (digit + up * LIMB) * w;
      { assert digit + up * LIMB == sum; }
      sum * w;
      x * w + y * w + carry * w;
    }
  }

  /** Limb-by-limb addition with carry is addition modulo 2^256. */
  method AddWords(a: Word, b: Word) returns (r: Word)
    ensures r == Add(a, b)
  {
    var sums, carry := AddLimbs(WordToLimbs(a), WordToLimbs(b));
    r := LimbsToWord(sums);
    WordToLimbsValue(a);
    WordToLimbsValue(b);
    LimbsToWordValue(sums);
    CarriedRemainder(Value(a) + Value(b), Value(r), carry, r);
    SameValueSameWord(r, Add(a, b));
  }

  lemma CarriedRemainder(n: int, value: nat, carry: int, r: Word)
    requires n == value + carry * MODULUS && value == Value(r)
    ensures Residue(n) == value
  {
    WordRange(r);
  }

  lemma BorrowedRemainder(n: int, value: nat, borrow: int, r: Word)
    requires n + borrow * MODULUS == value == Value(r)
    ensures Residue(n) == value
  {
    WordRange(r);
  }

  /** Limb differences with a borrow from the least significant limb up. */
  method SubLimbs(x: Limbs, y: Limbs) returns (diffs: Limbs, borrow: nat)
    ensures Tail(diffs, 0) + Tail(y, 0) == Tail(x, 0) + borrow * MODULUS
  {
    diffs, borrow := [0, 0, 0, 0], 0;
    var i := 4;
    while i > 0
      invariant 0 <= i <= 4 && borrow <= 1
      invariant Tail(diffs, i) + Tail(y, i) == Tail(x, i) + borrow * Weight(i - 1)
    {
      i := i - 1;
      var top := x[i] - borrow;
      var digit := if top >= y[i] then top - y[i] else LIMB + top - y[i];
      var next := if top >= y[i] then 0 else 1;
      BorrowStep(i, digit, y[i], x[i], borrow, next);
      TailFrame(diffs, i + 1, i, digit);
      diffs := diffs[i := digit];
      borrow := next;
    }
  }

  lemma BorrowStep(i: nat, digit: int, y: int, x: int, borrow: int, next: int)
    requires i < 4 && digit + y == x - borrow + next * LIMB
    ensures digit * Weight(i) + y * Weight(i) + borrow * Weight(i) == x * Weight(i) + next * Weight(i - 1)
  {
    var w := Weight(i);
    assert Weight(i - 1) == LIMB * w;
    calc {
      digit * w + y * w + borrow * w;
      (digit + y + borrow) * w;
      (x + next * LIMB) * w;
      x * w + next * (LIMB * w);
    }
  }

  /** Limb-by-limb subtraction with borrow is subtraction modulo 2^256. */
  method SubWords(a: Word, b: Word) returns (r: Word)
    ensures r == Sub(a, b)
  {
    var diffs, borrow := SubLimbs(WordToLimbs(a), WordToLimbs(b));
    r := LimbsToWord(diffs);
    WordToLimbsValue(a);
    WordToLimbsValue(b);
    LimbsToWordValue(diffs);
    BorrowedRemainder(Value(a) - Value(b), Value(r), borrow, r);
    SameValueSameWord(r, Sub(a, b));
  }

  // ----- comparison

  /** The first differing byte decides the order of the numbers. */
  lemma {:induction false} FirstDifferenceDecides(a: seq<Byte>, b: seq<Byte>, i: nat)
    requires |a| == |b| && i < |a| && a[..i] == b[..i] && a[i] < b[i]
    ensures Value(a) < Value(b)
  {
    var n := |a| - 1;
    if i < n {
      assert a[..n][..i] == a[..i] && b[..n][..i] == b[..i];
      FirstDifferenceDecides(a[..n], b[..n], i);
    } else {
      assert a[..n] == b[..n];
    }
  }

  method LessThan(a: Word, b: Word) returns (less: bool)
    ensures less == Lt(a, b)
  {
    for i := 0 to 32
      invariant a[..i] == b[..i]
    {
      if a[i] < b[i] {
        FirstDifferenceDecides(a, b, i);
        return true;
      } else if a[i] > b[i] {
        FirstDifferenceDecides(b, a, i);
        return false;
      }
    }
    assert a == a[..32] && b == b[..32];
    return false;
  }

  method GreaterThan(a: Word, b: Word) returns (greater: bool)
    ensures greater == Lt(b, a)
  {
    for i := 0 to 32
      invariant a[..i] == b[..i]
    {
      if a[i] > b[i] {
        FirstDifferenceDecides(b, a, i);
        return true;
      } else if a[i] < b[i] {
        FirstDifferenceDecides(a, b, i);
        return false;
      }
    }
    assert a == a[..32] && b == b[..32];
    return false;
  }

  /** All bytes zero is the number zero. */
  method IsZero(w: Word) returns (zero: bool)
    ensures zero == (Value(w) == 0)
  {
    for i := 0 to 32
      invariant w[..i] == Zero()[..i]
    {
      if w[i] != 0 {
        FirstDifferenceDecides(Zero(), w, i);
        return false;
      }
    }
    assert w == w[..32] == Zero()[..32] == Zero();
    ZeroValue();
    return true;
  }

  lemma ZeroValue()
    ensures Value(Zero()) == 0
  {
    ZerosValue(Zero());
  }

  lemma {:induction false} ZerosValue(bytes: seq<Byte>)
    requires forall i :: 0 <= i < |bytes| ==> bytes[i] == 0
    ensures Value(bytes) == 0
  {
    if bytes != [] {
      ZerosValue(bytes[..|bytes| - 1]);
    }
  }

  lemma OneValue()
    ensures Value(One()) == 1
  {
    var w := One();
    ZerosValue(w[..31]);
    assert Value(w) == Value(w[..31]) * 256 + w[31];
  }

  /** Complementing every byte takes the value from the largest of that length. */
  lemma {:induction false} ComplementValue(x: seq<Byte>, w: seq<Byte>)
    requires |w| == |x| && forall i :: 0 <= i < |x| ==> w[i] == 255 - x[i]
    ensures Value(w) + Value(x) == Pow256(|x|) - 1
  {
    if x != [] {
      ComplementValue(x[..|x| - 1], w[..|w| - 1]);
    }
  }

  lemma {:induction false} ZeroBytes(len: nat)
    ensures forall i :: 0 <= i < len ==> ToBytes(0, len)[i] == 0
  {
    if len > 0 {
      ZeroBytes(len - 1);
    }
  }

  lemma LimbsRoundTrip(l: Limbs)
    ensures WordToLimbs(LimbsToWord(l)) == l
  {
    var w := LimbsToWord(l);
    Pow256Facts();
    ToBytesValue(l[0], 8);
    ToBytesValue(l[1], 8);
    ToBytesValue(l[2], 8);
    ToBytesValue(l[3], 8);
    assert w[0..8] == ToBytes(l[0], 8) && w[8..16] == ToBytes(l[1], 8);
    assert w[16..24] == ToBytes(l[2], 8) && w[24..32] == ToBytes(l[3], 8);
    assert [l[0], l[1], l[2], l[3]] == l;
  }

  // ----- byte-wise logic, and the two operations that combine limbs in the other order

  function ByteAnd(x: Byte, y: Byte): Byte { ((x as bv8) & (y as bv8)) as int }
  function ByteOr(x: Byte, y: Byte): Byte { ((x as bv8) | (y as bv8)) as int }
  function ByteXor(x: Byte, y: Byte): Byte { ((x as bv8) ^ (y as bv8)) as int }

  function Zip(f: (Byte, Byte) -> Byte, a: Word, b: Word): Word {
    seq(32, i requires 0 <= i < 32 => f(a[i], b[i]))
  }

  function Complement(a: Word): Word {
    seq(32, i requires 0 <= i < 32 => 255 - a[i])
  }

  /** The 128 bits that Mul and Div work on: limb 2 low, limb 3 high. */
  function LowHalf(w: Word): nat {
    WordToLimbs(w)[2] + WordToLimbs(w)[3] * LIMB
  }

  lemma LowHalfBound(w: Word)
    ensures LowHalf(w) < LIMB * LIMB
  {}

  function FromLowHalf(n: nat): Word
    requires n < LIMB * LIMB
  {
    LimbsToWord([0, 0, n % LIMB, n / LIMB])
  }

  function Mul(a: Word, b: Word): Word {
    FromLowHalf(LowHalf(a) * LowHalf(b) % (LIMB * LIMB))
  }

  lemma DivBound(a: nat, b: nat)
    requires b > 0
    ensures 0 <= a / b <= a
  {
    var q := a / b;
    assert b * q <= a;
    assert b * q == (b - 1) * q + q;
    assert q >= 0 ==> (b - 1) * q >= 0;
  }

  function Quotient(a: nat, b: nat): (q: nat)
    requires b > 0
    ensures q <= a
  {
    DivBound(a, b);
    a / b
  }

  function Div(a: Word, b: Word): Word {
    if LowHalf(b) == 0 then Zero() else FromLowHalf(Quotient(LowHalf(a), LowHalf(b)))
  }

  /** The low 8 bytes as an index. */
  function ToIndex(w: Word): (n: nat)
    ensures n < LIMB
  {
    WordToLimbs(w)[3]
  }

  lemma SplitRemainder(q: nat, r: nat)
    requires r < LIMB
    ensures (q * LIMB + r) % LIMB == r
  {
    assert (q * LIMB + r) / LIMB == q;
  }

  /** An offset is the word's value cut to 64 bits. */
  lemma IndexIsLowBits(w: Word)
    ensures ToIndex(w) == Value(w) % LIMB
  {
    var l := WordToLimbs(w);
    WordToLimbsValue(w);
    TailUnfolds(l);
    SplitRemainder((l[0] * LIMB + l[1]) * LIMB + l[2], l[3]);
  }

  lemma SmallValueIndex(w: Word, d: nat)
    requires Value(w) == d < LIMB
    ensures ToIndex(w) == d
  {
    IndexIsLowBits(w);
    SplitRemainder(0, d);
  }

  lemma SmallResidue(d: nat)
    requires d < MODULUS
    ensures Residue(d) == d
  {}

  /** Subtracting nearby numbers leaves their difference. */
  lemma DifferenceIndex(a: Word, b: Word, w: Word, d: nat)
    requires Value(a) == Value(b) + d && d < LIMB && w == Sub(a, b)
    ensures ToIndex(w) == d
  {
    var x: int, y: int := Value(a), Value(b);
    GapValue(x, y, a, b, w);
    assert x - y == d;
    SmallResidue(d);
    SmallValueIndex(w, d);
  }
}
