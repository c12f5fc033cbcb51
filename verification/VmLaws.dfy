/** One instruction, read off the code byte, the stack, the memory and the gas alone. */
module VmLaws {
  import opened Base
  import opened Runs
  import opened Vm
  import W = Words

  // ----- which bytes are instructions, and what each costs

  predicate Known(b: Byte) {
    b <= 0x0b || 0x10 <= b <= 0x1d || b == 0x20 || 0x30 <= b <= 0x48 || 0x50 <= b <= 0x5b || 0x60 <= b <= 0xa4
    || 0xf0 <= b <= 0xf5 || b == 0xfa || b >= 0xfd
  }

  /** The price list, byte by byte. */
  function Price(b: Byte, s: Schedule): nat {
    if b in {0x00, 0xf3, 0xfd, 0xfe} then 0
    else if b == 0x5b then 1
    else if b in {0x51, 0x52, 0x53} then s.veryLow
    else if b in {0x05, 0x07, 0x0b, 0x12, 0x13} || 0x1a <= b <= 0x1d then s.low
    else if b == 0x0a then s.exp
    else if b == 0x20 then s.sha3
    else if b == 0x54 then s.sload
    else if b == 0x55 then s.sstoreSet
    else if b in {0x31, 0x3b, 0x3f} then s.balance
    else if b in {0xf1, 0xf2, 0xf4, 0xfa} then s.call
    else if b in {0xf0, 0xf5} then s.create
    else if b == 0xff then s.selfdestruct
    else if b <= 0x06 || 0x10 <= b <= 0x19 || b in {0x30, 0x32, 0x33, 0x36, 0x38, 0x3d, 0x50, 0x58, 0x59, 0x5a}
    then s.base
    else s.mid
  }

  /** The byte at the counter, and a charge for it that fits. */
  ghost predicate Paid(p: Program, limit: nat, m: Machine, b: Byte, total: nat) {
    m.pc < |p.code| && p.code[m.pc] == b && total == (m.gasUsed + Price(b, p.schedule)) % 0x1_0000_0000_0000_0000
    && total <= limit
  }

  /** The machine past a paid instruction that left this stack. */
  function Past(m: Machine, total: nat, stack: seq<Word>): Machine {
    Machine(m.pc + 1, stack, m.memory, total, m.returnData, m.stopped)
  }

  /** The instruction leaves one word on top of `rest`, unless the stack is full. */
  ghost predicate Pushes(o: Outcome, m: Machine, total: nat, rest: seq<Word>, w: Word) {
    o == if |rest| >= 1024 then Outcome(Past(m, total, rest), Some(StackOverflow))
         else Outcome(Past(m, total, rest + [w]), None)
  }

  lemma KnownDecodes(b: Byte)
    ensures FromByte(b).Some? == Known(b)
  {}

  /** A byte that is no instruction stops the run where it is. */
  lemma UnknownByte(p: Program, limit: nat, m: Machine)
    requires m.pc < |p.code| && !Known(p.code[m.pc])
    ensures Step(p, limit, m) == Outcome(m, Some(InvalidOpcode(p.code[m.pc])))
  {
    KnownDecodes(p.code[m.pc]);
  }

  lemma InertPrice(b: Byte, t: Tier, s: Schedule)
    requires FromByte(b) == Some(Inert(t))
    ensures TierCost(t, s) == Price(b, s)
  {}

  lemma NamedPrice(b: Byte, op: Opcode, s: Schedule)
    requires FromByte(b) == Some(op) && !op.Inert?
    ensures GasCost(op, s) == Price(b, s)
  {}

  lemma PriceIsCost(b: Byte, op: Opcode, s: Schedule)
    requires FromByte(b) == Some(op)
    ensures GasCost(op, s) == Price(b, s)
  {
    if op.Inert? {
      InertPrice(b, op.tier, s);
    } else {
      NamedPrice(b, op, s);
    }
  }

  /** An instruction whose charge, cut to 64 bits, exceeds the limit changes nothing. */
  lemma Unaffordable(p: Program, limit: nat, m: Machine)
    requires m.pc < |p.code| && Known(p.code[m.pc])
    requires (m.gasUsed + Price(p.code[m.pc], p.schedule)) % 0x1_0000_0000_0000_0000 > limit
    ensures Step(p, limit, m) == Outcome(m, Some(OutOfGas(m.gasUsed, limit)))
  {
    KnownDecodes(p.code[m.pc]);
    PriceIsCost(p.code[m.pc], FromByte(p.code[m.pc]).value, p.schedule);
  }

  lemma ChargedExecutes(p: Program, limit: nat, m: Machine, op: Opcode, cost: nat, total: nat)
    requires cost == GasCost(op, p.schedule) && total == (m.gasUsed + cost) % W.LIMB <= limit
    ensures Perform(p, limit, m, op) == Exec(p, limit, Past(m, total, m.stack), op)
  {}

  lemma PaidExecutes(p: Program, limit: nat, m: Machine, b: Byte, op: Opcode, total: nat)
    requires Paid(p, limit, m, b, total) && FromByte(b) == Some(op)
    ensures Step(p, limit, m) == Exec(p, limit, Past(m, total, m.stack), op)
  {
    PriceIsCost(b, op, p.schedule);
    ChargedExecutes(p, limit, m, op, Price(b, p.schedule), total);
  }

  lemma TakesNone(p: Program, limit: nat, m: Machine, b: Byte, op: Opcode, total: nat) returns (x: Word, y: Word)
    requires Paid(p, limit, m, b, total) && FromByte(b) == Some(op) && Arity(op) == 0
    ensures Step(p, limit, m) == Act(p, limit, Past(m, total, m.stack), op, x, y)
  {
    PaidExecutes(p, limit, m, b, op, total);
    var past := Past(m, total, m.stack);
    assert past.stack[..|past.stack|] == past.stack;
    x, y := Operand(past, 0), Operand(past, 1);
  }

  lemma TakesOne(p: Program, limit: nat, m: Machine, b: Byte, op: Opcode, total: nat, rest: seq<Word>, a: Word)
      returns (unused: Word)
    requires Paid(p, limit, m, b, total) && FromByte(b) == Some(op) && Arity(op) == 1 && m.stack == rest + [a]
    ensures Step(p, limit, m) == Act(p, limit, Past(m, total, rest), op, a, unused)
  {
    PaidExecutes(p, limit, m, b, op, total);
    var past := Past(m, total, m.stack);
    unused := Operand(past, 1);
    assert m.stack[..|m.stack| - 1] == rest;
    assert Popped(past, 1) == Past(m, total, rest);
  }

  lemma TakesTwo(p: Program, limit: nat, m: Machine, b: Byte, op: Opcode, total: nat, rest: seq<Word>, x: Word, y: Word)
    requires Paid(p, limit, m, b, total) && FromByte(b) == Some(op) && Arity(op) == 2 && m.stack == rest + [y, x]
    ensures Step(p, limit, m) == Act(p, limit, Past(m, total, rest), op, x, y)
  {
    PaidExecutes(p, limit, m, b, op, total);
    var past := Past(m, total, m.stack);
    assert m.stack[..|m.stack| - 2] == rest;
    assert Popped(past, 2) == Past(m, total, rest);
  }

  // ----- arithmetic and comparison: x on top, y below it

  /** 0x01 adds modulo 2^256. */
  lemma AddLaw(p: Program, limit: nat, m: Machine, total: nat, rest: seq<Word>, x: Word, y: Word) returns (w: Word)
    requires Paid(p, limit, m, 0x01, total) && m.stack == rest + [y, x]
    ensures W.Value(w) == (W.Value(x) + W.Value(y)) % W.MODULUS && Pushes(Step(p, limit, m), m, total, rest, w)
  {
    w := W.Add(x, y);
    TakesTwo(p, limit, m, 0x01, Add, total, rest, x, y);
  }

  /** 0x03 takes the lower operand from the top one, modulo 2^256. */
  lemma SubLaw(p: Program, limit: nat, m: Machine, total: nat, rest: seq<Word>, x: Word, y: Word) returns (w: Word)
    requires Paid(p, limit, m, 0x03, total) && m.stack == rest + [y, x]
    ensures W.Value(w) == (W.Value(x) - W.Value(y)) % W.MODULUS && Pushes(Step(p, limit, m), m, total, rest, w)
  {
    w := W.Sub(x, y);
    TakesTwo(p, limit, m, 0x03, Sub, total, rest, x, y);
  }

  lemma FlagValue(f: bool)
    ensures W.Value(Flag(f)) == if f then 1 else 0
  {
    W.ZeroValue();
    W.OneValue();
  }

  /** 0x10 tells whether the top value is the smaller. */
  lemma LtLaw(p: Program, limit: nat, m: Machine, total: nat, rest: seq<Word>, x: Word, y: Word) returns (w: Word)
    requires Paid(p, limit, m, 0x10, total) && m.stack == rest + [y, x]
    ensures W.Value(w) == (if W.Value(x) < W.Value(y) then 1 else 0) && Pushes(Step(p, limit, m), m, total, rest, w)
  {
    w := Flag(W.Lt(x, y));
    FlagValue(W.Lt(x, y));
    TakesTwo(p, limit, m, 0x10, Lt, total, rest, x, y);
  }

  /** 0x11 tells whether the top value is the larger. */
  lemma GtLaw(p: Program, limit: nat, m: Machine, total: nat, rest: seq<Word>, x: Word, y: Word) returns (w: Word)
    requires Paid(p, limit, m, 0x11, total) && m.stack == rest + [y, x]
    ensures W.Value(w) == (if W.Value(x) > W.Value(y) then 1 else 0) && Pushes(Step(p, limit, m), m, total, rest, w)
  {
    w := Flag(W.Lt(y, x));
    FlagValue(W.Lt(y, x));
    TakesTwo(p, limit, m, 0x11, Gt, total, rest, x, y);
  }

  /** 0x14 tells whether the two values are the same. */
  lemma EqLaw(p: Program, limit: nat, m: Machine, total: nat, rest: seq<Word>, x: Word, y: Word) returns (w: Word)
    requires Paid(p, limit, m, 0x14, total) && m.stack == rest + [y, x]
    ensures W.Value(w) == (if W.Value(x) == W.Value(y) then 1 else 0) && Pushes(Step(p, limit, m), m, total, rest, w)
  {
    w := Flag(x == y);
    FlagValue(x == y);
    if W.Value(x) == W.Value(y) {
      W.SameValueSameWord(x, y);
    }
    TakesTwo(p, limit, m, 0x14, Eq, total, rest, x, y);
  }

  /** 0x15 tells whether the top value is zero. */
  lemma IsZeroLaw(p: Program, limit: nat, m: Machine, total: nat, rest: seq<Word>, x: Word) returns (w: Word)
    requires Paid(p, limit, m, 0x15, total) && m.stack == rest + [x]
    ensures W.Value(w) == (if W.Value(x) == 0 then 1 else 0) && Pushes(Step(p, limit, m), m, total, rest, w)
  {
    w := Flag(W.Value(x) == 0);
    FlagValue(W.Value(x) == 0);
    var _ := TakesOne(p, limit, m, 0x15, IsZero, total, rest, x);
  }

  /** The 128 bits 0x02 and 0x04 read: the third eight bytes low, the last eight high. */
  function Half(w: Word): nat {
    W.Value(w[16..24]) + W.Value(w[24..]) * 0x1_0000_0000_0000_0000
  }

  ghost predicate IsHalf(w: Word, n: nat) {
    Half(w) == n && forall i :: 0 <= i < 16 ==> w[i] == 0
  }

  lemma FromLowHalfIsHalf(n: nat)
    requires n < W.LIMB * W.LIMB
    ensures IsHalf(W.FromLowHalf(n), n)
  {
    var l: W.Limbs := [0, 0, n % W.LIMB, n / W.LIMB];
    W.LimbsRoundTrip(l);
    var w := W.LimbsToWord(l);
    assert w[24..32] == w[24..];
    W.ZeroBytes(8);
    assert forall i :: 0 <= i < 8 ==> w[i] == W.ToBytes(0, 8)[i] && w[8 + i] == W.ToBytes(0, 8)[i];
  }

  lemma HalfIsLowHalf(w: Word)
    ensures Half(w) == W.LowHalf(w)
  {
    assert w[24..32] == w[24..];
  }

  /** 0x02 multiplies those halves and keeps 128 bits. */
  lemma MulLaw(p: Program, limit: nat, m: Machine, total: nat, rest: seq<Word>, x: Word, y: Word) returns (w: Word)
    requires Paid(p, limit, m, 0x02, total) && m.stack == rest + [y, x]
    ensures IsHalf(w, Half(x) * Half(y) % (W.LIMB * W.LIMB)) && Pushes(Step(p, limit, m), m, total, rest, w)
  {
    w := W.Mul(x, y);
    HalfIsLowHalf(x);
    HalfIsLowHalf(y);
    FromLowHalfIsHalf(W.LowHalf(x) * W.LowHalf(y) % (W.LIMB * W.LIMB));
    TakesTwo(p, limit, m, 0x02, Mul, total, rest, x, y);
  }

  lemma DividedHalf(x: Word, y: Word, w: Word)
    requires w == W.Div(x, y)
    ensures IsHalf(w, if Half(y) == 0 then 0 else W.Quotient(Half(x), Half(y)))
  {
    HalfIsLowHalf(x);
    HalfIsLowHalf(y);
    W.LowHalfBound(x);
    if W.LowHalf(y) != 0 {
      FromLowHalfIsHalf(W.Quotient(W.LowHalf(x), W.LowHalf(y)));
    } else {
      W.ZerosValue(w[16..24]);
      W.ZerosValue(w[24..]);
    }
  }

  /** 0x04 divides the top half by the lower one, and gives zero when that is zero. */
  lemma DivLaw(p: Program, limit: nat, m: Machine, total: nat, rest: seq<Word>, x: Word, y: Word) returns (w: Word)
    requires Paid(p, limit, m, 0x04, total) && m.stack == rest + [y, x]
    ensures IsHalf(w, if Half(y) == 0 then 0 else W.Quotient(Half(x), Half(y)))
    ensures Pushes(Step(p, limit, m), m, total, rest, w)
  {
    w := DivPushes(p, limit, m, total, rest, x, y);
    DividedHalf(x, y, w);
  }

  lemma DivPushes(p: Program, limit: nat, m: Machine, total: nat, rest: seq<Word>, x: Word, y: Word) returns (w: Word)
    requires Paid(p, limit, m, 0x04, total) && m.stack == rest + [y, x]
    ensures w == W.Div(x, y) && Pushes(Step(p, limit, m), m, total, rest, w)
  {
    w := W.Div(x, y);
    TakesTwo(p, limit, m, 0x04, Div, total, rest, x, y);
  }

  // ----- logic, byte by byte

  lemma AndBytes(x: Word, y: Word) returns (w: Word)
    ensures w == W.Zip(W.ByteAnd, x, y)
    ensures forall i :: 0 <= i < 32 ==> w[i] == ((x[i] as bv8) & (y[i] as bv8)) as int
  {
    w := W.Zip(W.ByteAnd, x, y);
    assert forall i :: 0 <= i < 32 ==> w[i] == W.ByteAnd(x[i], y[i]);
  }

  lemma OrBytes(x: Word, y: Word) returns (w: Word)
    ensures w == W.Zip(W.ByteOr, x, y)
    ensures forall i :: 0 <= i < 32 ==> w[i] == ((x[i] as bv8) | (y[i] as bv8)) as int
  {
    w := W.Zip(W.ByteOr, x, y);
    assert forall i :: 0 <= i < 32 ==> w[i] == W.ByteOr(x[i], y[i]);
  }

  lemma XorBytes(x: Word, y: Word) returns (w: Word)
    ensures w == W.Zip(W.ByteXor, x, y)
    ensures forall i :: 0 <= i < 32 ==> w[i] == ((x[i] as bv8) ^ (y[i] as bv8)) as int
  {
    w := W.Zip(W.ByteXor, x, y);
    assert forall i :: 0 <= i < 32 ==> w[i] == W.ByteXor(x[i], y[i]);
  }

  lemma AndLaw(p: Program, limit: nat, m: Machine, total: nat, rest: seq<Word>, x: Word, y: Word) returns (w: Word)
    requires Paid(p, limit, m, 0x16, total) && m.stack == rest + [y, x]
    ensures forall i :: 0 <= i < 32 ==> w[i] == ((x[i] as bv8) & (y[i] as bv8)) as int
    ensures Pushes(Step(p, limit, m), m, total, rest, w)
  {
    w := AndBytes(x, y);
    TakesTwo(p, limit, m, 0x16, And, total, rest, x, y);
  }

  lemma OrLaw(p: Program, limit: nat, m: Machine, total: nat, rest: seq<Word>, x: Word, y: Word) returns (w: Word)
    requires Paid(p, limit, m, 0x17, total) && m.stack == rest + [y, x]
    ensures forall i :: 0 <= i < 32 ==> w[i] == ((x[i] as bv8) | (y[i] as bv8)) as int
    ensures Pushes(Step(p, limit, m), m, total, rest, w)
  {
    w := OrBytes(x, y);
    TakesTwo(p, limit, m, 0x17, Or, total, rest, x, y);
  }

  lemma XorLaw(p: Program, limit: nat, m: Machine, total: nat, rest: seq<Word>, x: Word, y: Word) returns (w: Word)
    requires Paid(p, limit, m, 0x18, total) && m.stack == rest + [y, x]
    ensures forall i :: 0 <= i < 32 ==> w[i] == ((x[i] as bv8) ^ (y[i] as bv8)) as int
    ensures Pushes(Step(p, limit, m), m, total, rest, w)
  {
    w := XorBytes(x, y);
    TakesTwo(p, limit, m, 0x18, Xor, total, rest, x, y);
  }

  /** 0x19 turns a value v into 2^256 - 1 - v. */
  lemma NotLaw(p: Program, limit: nat, m: Machine, total: nat, rest: seq<Word>, x: Word) returns (w: Word)
    requires Paid(p, limit, m, 0x19, total) && m.stack == rest + [x]
    ensures W.Value(w) + W.Value(x) == W.MODULUS - 1 && Pushes(Step(p, limit, m), m, total, rest, w)
  {
    w := W.Complement(x);
    W.ComplementValue(x, w);
    W.Pow256Facts();
    var _ := TakesOne(p, limit, m, 0x19, Not, total, rest, x);
  }

  // ----- memory

  /** The byte an offset addresses; memory is zero past its end. */
  function ByteAt(memory: seq<Byte>, at: nat): Byte {
    if at < |memory| then memory[at] else 0
  }

  ghost predicate Slice(bytes: seq<Byte>, memory: seq<Byte>, offset: nat, size: nat) {
    |bytes| == size && forall i :: 0 <= i < size ==> bytes[i] == ByteAt(memory, offset + i)
  }

  /** `data` laid over memory at `offset`, memory growing with zeros to hold it. */
  ghost predicate Overlaid(after: seq<Byte>, memory: seq<Byte>, offset: nat, data: seq<Byte>) {
    && |after| == (if offset + |data| > |memory| then offset + |data| else |memory|)
    && forall i :: 0 <= i < |after| ==>
         after[i] == if offset <= i < offset + |data| then data[i - offset] else ByteAt(memory, i)
  }

  /** 0x51 pushes the 32 bytes at the offset on top. */
  lemma MLoadLaw(p: Program, limit: nat, m: Machine, total: nat, rest: seq<Word>, x: Word) returns (w: Word)
    requires Paid(p, limit, m, 0x51, total) && m.stack == rest + [x]
    ensures Slice(w, m.memory, W.Value(x) % W.LIMB, 32) && Pushes(Step(p, limit, m), m, total, rest, w)
  {
    W.IndexIsLowBits(x);
    w := Read(m.memory, W.ToIndex(x), 32);
    var _ := TakesOne(p, limit, m, 0x51, MLoad, total, rest, x);
  }

  /** A store lays `data` over memory, or aborts when the memory it needs cannot be allocated. */
  ghost predicate Stores(o: Outcome, m: Machine, total: nat, rest: seq<Word>, offset: nat, data: seq<Byte>) {
    if offset + |data| > 0x7FFF_FFFF_FFFF_FFFF then o == Outcome(Past(m, total, rest), Some(Aborted))
    else Overlaid(o.next.memory, m.memory, offset, data)
         && o == Outcome(Past(m, total, rest).(memory := o.next.memory), None)
  }

  lemma StoreLays(m: Machine, total: nat, rest: seq<Word>, offset: nat, data: seq<Byte>)
    ensures Stores(Store(Past(m, total, rest), offset, data), m, total, rest, offset, data)
  {}

  /** 0x52 stores the lower operand's 32 bytes at the offset on top. */
  lemma MStoreLaw(p: Program, limit: nat, m: Machine, total: nat, rest: seq<Word>, x: Word, y: Word)
    requires Paid(p, limit, m, 0x52, total) && m.stack == rest + [y, x]
    ensures Stores(Step(p, limit, m), m, total, rest, W.Value(x) % W.LIMB, y)
  {
    var offset := W.ToIndex(x);
    W.IndexIsLowBits(x);
    TakesTwo(p, limit, m, 0x52, MStore, total, rest, x, y);
    StoreLays(m, total, rest, offset, y);
  }

  /** 0x53 stores the lower operand's last byte there. */
  lemma MStore8Law(p: Program, limit: nat, m: Machine, total: nat, rest: seq<Word>, x: Word, y: Word)
    requires Paid(p, limit, m, 0x53, total) && m.stack == rest + [y, x]
    ensures Stores(Step(p, limit, m), m, total, rest, W.Value(x) % W.LIMB, [y[31]])
  {
    var offset := W.ToIndex(x);
    W.IndexIsLowBits(x);
    TakesTwo(p, limit, m, 0x53, MStore8, total, rest, x, y);
    StoreLays(m, total, rest, offset, [y[31]]);
  }

  /** A word stored at an offset is what is loaded from any machine with that memory and that offset on top. */
  lemma StoreThenLoad(p: Program, limit: nat, m: Machine, total: nat, rest: seq<Word>, x: Word, y: Word,
                      p': Program, m': Machine, total': nat, rest': seq<Word>, x': Word)
    requires Paid(p, limit, m, 0x52, total) && m.stack == rest + [y, x] && Step(p, limit, m).error.None?
    requires Paid(p', limit, m', 0x51, total') && m'.stack == rest' + [x'] && m'.memory == Step(p, limit, m).next.memory
    requires W.Value(x') % W.LIMB == W.Value(x) % W.LIMB
    ensures Pushes(Step(p', limit, m'), m', total', rest', y)
  {
    MStoreLaw(p, limit, m, total, rest, x, y);
    var w := MLoadLaw(p', limit, m', total', rest', x');
    SameSlice(w, y, m.memory, m'.memory, W.Value(x) % W.LIMB);
  }

  lemma SameSlice(w: Word, y: Word, memory: seq<Byte>, after: seq<Byte>, offset: nat)
    requires Overlaid(after, memory, offset, y) && Slice(w, after, offset, 32)
    ensures w == y
  {
    forall i | 0 <= i < 32
      ensures w[i] == y[i]
    {
      assert w[i] == ByteAt(after, offset + i);
      assert after[offset + i] == y[i];
    }
  }

  // ----- control

  /** Whether an offset is one a jump may land on. */
  predicate Lands(code: seq<Byte>, target: nat) {
    target < |code| && code[target] == 0x5b
  }

  /** 0x56 goes to the value on top, cut to 64 bits, exactly when a 0x5b stands there. */
  lemma JumpLaw(p: Program, limit: nat, m: Machine, total: nat, rest: seq<Word>, dest: Word)
    requires Paid(p, limit, m, 0x56, total) && m.stack == rest + [dest]
    ensures var target := W.Value(dest) % W.LIMB;
            Step(p, limit, m) == if Lands(p.code, target) then Outcome(Past(m, total, rest).(pc := target), None)
                                 else Outcome(Past(m, total, rest), Some(InvalidJump))
  {
    W.IndexIsLowBits(dest);
    var _ := TakesOne(p, limit, m, 0x56, Jump, total, rest, dest);
  }

  /** 0x57 does the same when the value below is not zero, and goes on to the next byte when it is. */
  lemma JumpILaw(p: Program, limit: nat, m: Machine, total: nat, rest: seq<Word>, cond: Word, dest: Word)
    requires Paid(p, limit, m, 0x57, total) && m.stack == rest + [cond, dest]
    ensures var target := W.Value(dest) % W.LIMB;
            Step(p, limit, m) == if W.Value(cond) == 0 then Outcome(Past(m, total, rest), None)
                                 else if Lands(p.code, target) then Outcome(Past(m, total, rest).(pc := target), None)
                                 else Outcome(Past(m, total, rest), Some(InvalidJump))
  {
    W.IndexIsLowBits(dest);
    TakesTwo(p, limit, m, 0x57, JumpI, total, rest, dest, cond);
  }

  /** 0x58 pushes the offset of the byte after it. */
  lemma PcLaw(p: Program, limit: nat, m: Machine, total: nat) returns (w: Word)
    requires Paid(p, limit, m, 0x58, total)
    ensures W.Value(w) == (m.pc + 1) % W.LIMB && Pushes(Step(p, limit, m), m, total, m.stack, w)
  {
    w := NumberWord(m.pc + 1);
    var x, y := TakesNone(p, limit, m, 0x58, PC, total);
  }

  /** 0x5a pushes what is left of the limit after its own charge. */
  lemma GasLaw(p: Program, limit: nat, m: Machine, total: nat) returns (w: Word)
    requires Paid(p, limit, m, 0x5a, total)
    ensures W.Value(w) == (limit - total) % W.LIMB && Pushes(Step(p, limit, m), m, total, m.stack, w)
  {
    w := NumberWord(limit - total);
    var x, y := TakesNone(p, limit, m, 0x5a, Gas, total);
    GasIsRest(p, limit, Past(m, total, m.stack), x, y, limit - total);
  }

  lemma GasIsRest(p: Program, limit: nat, m: Machine, x: Word, y: Word, rest: nat)
    requires m.gasUsed + rest == limit
    ensures Act(p, limit, m, Gas, x, y) == Push(m, NumberWord(rest))
  {}

  /** 0x00 stops; 0x50 drops a word; 0xfe fails; 0x5b and every instruction not named elsewhere only move on. */
  lemma PlainLaws(p: Program, limit: nat, m: Machine, b: Byte, total: nat)
    requires Paid(p, limit, m, b, total)
    ensures b == 0x00 ==> Step(p, limit, m) == Outcome(Past(m, total, m.stack).(stopped := true), None)
    ensures b == 0xfe ==> Step(p, limit, m) == Outcome(Past(m, total, m.stack), Some(InvalidOpcode(0xfe)))
    ensures b == 0x5b || (Known(b) && !Implemented(b)) ==> Step(p, limit, m) == Outcome(Past(m, total, m.stack), None)
  {
    if b == 0x00 || b == 0xfe || b == 0x5b || (Known(b) && !Implemented(b)) {
      KnownDecodes(b);
      var x, y := TakesNone(p, limit, m, b, FromByte(b).value, total);
    }
  }

  /** The bytes with an effect of their own. */
  predicate Implemented(b: Byte) {
    b <= 0x04 || b in {0x10, 0x11, 0x20, 0x58, 0xf3, 0xfd, 0xfe} || 0x14 <= b <= 0x19 || 0x50 <= b <= 0x53
    || 0x56 <= b <= 0x58 || 0x5a <= b <= 0x5b
  }

  lemma PopLaw(p: Program, limit: nat, m: Machine, total: nat, rest: seq<Word>, x: Word)
    requires Paid(p, limit, m, 0x50, total) && m.stack == rest + [x]
    ensures Step(p, limit, m) == Outcome(Past(m, total, rest), None)
  {
    var _ := TakesOne(p, limit, m, 0x50, Pop, total, rest, x);
  }

  // ----- the three that read a stretch of memory: offset on top, size below

  lemma Stretch(memory: seq<Byte>, x: Word, y: Word) returns (bytes: seq<Byte>)
    ensures bytes == Read(memory, W.ToIndex(x), W.ToIndex(y)) && W.ToIndex(y) == W.Value(y) % W.LIMB
    ensures Slice(bytes, memory, W.Value(x) % W.LIMB, W.Value(y) % W.LIMB)
  {
    W.IndexIsLowBits(x);
    W.IndexIsLowBits(y);
    bytes := Read(memory, W.ToIndex(x), W.ToIndex(y));
  }

  /** 0x20 pushes the digest of the stretch. */
  lemma Sha3Law(p: Program, limit: nat, m: Machine, total: nat, rest: seq<Word>, x: Word, y: Word)
      returns (bytes: seq<Byte>)
    requires Paid(p, limit, m, 0x20, total) && m.stack == rest + [y, x] && W.Value(y) % W.LIMB <= MAX_ALLOC
    ensures Slice(bytes, m.memory, W.Value(x) % W.LIMB, W.Value(y) % W.LIMB)
    ensures Pushes(Step(p, limit, m), m, total, rest, p.keccak(bytes))
  {
    bytes := Stretch(m.memory, x, y);
    TakesTwo(p, limit, m, 0x20, Sha3, total, rest, x, y);
  }

  /** 0xf3 returns the stretch and stops. */
  lemma ReturnLaw(p: Program, limit: nat, m: Machine, total: nat, rest: seq<Word>, x: Word, y: Word)
      returns (bytes: seq<Byte>)
    requires Paid(p, limit, m, 0xf3, total) && m.stack == rest + [y, x] && W.Value(y) % W.LIMB <= MAX_ALLOC
    ensures Slice(bytes, m.memory, W.Value(x) % W.LIMB, W.Value(y) % W.LIMB)
    ensures Step(p, limit, m) == Outcome(Past(m, total, rest).(returnData := bytes, stopped := true), None)
  {
    bytes := Stretch(m.memory, x, y);
    TakesTwo(p, limit, m, 0xf3, Return, total, rest, x, y);
  }

  /** 0xfd fails with the stretch as its reason. */
  lemma RevertLaw(p: Program, limit: nat, m: Machine, total: nat, rest: seq<Word>, x: Word, y: Word)
      returns (bytes: seq<Byte>)
    requires Paid(p, limit, m, 0xfd, total) && m.stack == rest + [y, x] && W.Value(y) % W.LIMB <= MAX_ALLOC
    ensures Slice(bytes, m.memory, W.Value(x) % W.LIMB, W.Value(y) % W.LIMB)
    ensures Step(p, limit, m) == Outcome(Past(m, total, rest), Some(Reverted(bytes)))
  {
    bytes := Stretch(m.memory, x, y);
    TakesTwo(p, limit, m, 0xfd, Revert, total, rest, x, y);
  }

  lemma ReadingByte(b: Byte) returns (op: Opcode)
    requires b in {0x20, 0xf3, 0xfd}
    ensures FromByte(b) == Some(op) && Reads(op) && Arity(op) == 2
  {
    op := FromByte(b).value;
  }

  lemma ReadingAborts(p: Program, limit: nat, m: Machine, op: Opcode, x: Word, y: Word)
    requires Reads(op) && W.ToIndex(y) > MAX_ALLOC
    ensures Act(p, limit, m, op, x, y) == Outcome(m, Some(Aborted))
  {}

  /** A stretch too long to allocate aborts all three. */
  lemma TooLongAborts(p: Program, limit: nat, m: Machine, b: Byte, total: nat, rest: seq<Word>, x: Word, y: Word)
    requires b in {0x20, 0xf3, 0xfd} && Paid(p, limit, m, b, total) && m.stack == rest + [y, x]
    requires W.Value(y) % W.LIMB > 0x7FFF_FFFF_FFFF_FFFF
    ensures Step(p, limit, m) == Outcome(Past(m, total, rest), Some(Aborted))
  {
    W.IndexIsLowBits(y);
    var op := ReadingByte(b);
    TakesTwo(p, limit, m, b, op, total, rest, x, y);
    ReadingAborts(p, limit, Past(m, total, rest), op, x, y);
  }

  // ----- running short

  /** How many words a byte's instruction needs. */
  function Needs(b: Byte): nat {
    if b in {0x01, 0x02, 0x03, 0x04, 0x10, 0x11, 0x14, 0x16, 0x17, 0x18, 0x20, 0x52, 0x53, 0x57, 0xf3, 0xfd} then 2
    else if b in {0x15, 0x19, 0x50, 0x51, 0x56} then 1
    else 0
  }

  /** An instruction that needs more words than there are empties the stack and fails. */
  lemma ShortStack(p: Program, limit: nat, m: Machine, b: Byte, total: nat)
    requires Paid(p, limit, m, b, total) && |m.stack| < Needs(b)
    ensures Step(p, limit, m) == Outcome(Past(m, total, []), Some(StackUnderflow))
  {
    PaidExecutes(p, limit, m, b, FromByte(b).value, total);
  }

  // ----- the run loop

  /** A machine that has stopped, or is past the code, ends as it is. */
  lemma RestEnds(p: Program, limit: nat, m: Machine)
    requires m.stopped || m.pc >= |p.code|
    ensures Ends(Moves(p, limit), m, 0, Outcome(m, None))
  {}

  /** Otherwise an instruction that fails ends the run with its error, and one that does not is followed by the run from
      where it leads. */
  lemma RunContinues(p: Program, limit: nat, m: Machine, n: nat, o: Outcome)
    requires !m.stopped && m.pc < |p.code|
    ensures Step(p, limit, m).error.Some? ==> Ends(Moves(p, limit), m, 0, Step(p, limit, m))
    ensures Step(p, limit, m).error.None? ==>
              (Ends(Moves(p, limit), m, n + 1, o) <==> Ends(Moves(p, limit), Step(p, limit, m).next, n, o))
  {
    MovesFollow(p, limit);
    StepsOnce(Moves(p, limit), p, limit, m, Step(p, limit, m), n, o);
  }

  lemma StepsOnce(f: Mover, p: Program, limit: nat, m: Machine, r: Outcome, n: nat, o: Outcome)
    requires Follows(f, p, limit) && !m.stopped && m.pc < |p.code| && r == Step(p, limit, m)
    ensures r.error.Some? ==> Ends(f, m, 0, r)
    ensures r.error.None? ==> (Ends(f, m, n + 1, o) <==> Ends(f, r.next, n, o))
  {
    assert Looked(m);
    assert f(m) == if r.error.Some? then Halt(r) else Go(r.next);
  }
}
