/** The bytecode machine: stack, memory, gas, jumps; why it stops and what the gas limit can change. */
module Vm {
  import opened Base
  import opened Runs
  import W = Words

  type Word = W.Word

  const MAX_STACK: nat := 1024
  /** The longest buffer the allocator accepts; asking for more aborts the process. */
  const MAX_ALLOC: nat := 0x7FFF_FFFF_FFFF_FFFF
  const GAS_BYTE: Byte := 0x5a
  const JUMPDEST_BYTE: Byte := 0x5b

  // ----- opcodes and prices

  datatype Tier = Base | Low | Mid | Exp | Sload | SstoreSet | Balance | Call | Create | SelfDestruct

  /** Implemented opcodes by name; every other known byte is charged by its tier and does nothing. */
  datatype Opcode =
    | Stop | Add | Mul | Sub | Div | Lt | Gt | Eq | IsZero | And | Or | Xor | Not | Sha3
    | Pop | MLoad | MStore | MStore8 | Jump | JumpI | PC | Gas | JumpDest
    | Return | Revert | Invalid
    | Inert(tier: Tier)

  datatype Schedule = Schedule(base: nat, veryLow: nat, low: nat, mid: nat, exp: nat, sha3: nat, sload: nat,
                               sstoreSet: nat, balance: nat, call: nat, create: nat, selfdestruct: nat)

  function FromByte(b: Byte): Option<Opcode> {
    match b
    case 0x00 => Some(Stop)
    case 0x01 => Some(Add)
    case 0x02 => Some(Mul)
    case 0x03 => Some(Sub)
    case 0x04 => Some(Div)
    case 0x10 => Some(Lt)
    case 0x11 => Some(Gt)
    case 0x14 => Some(Eq)
    case 0x15 => Some(IsZero)
    case 0x16 => Some(And)
    case 0x17 => Some(Or)
    case 0x18 => Some(Xor)
    case 0x19 => Some(Not)
    case 0x20 => Some(Sha3)
    case 0x50 => Some(Pop)
    case 0x51 => Some(MLoad)
    case 0x52 => Some(MStore)
    case 0x53 => Some(MStore8)
    case 0x56 => Some(Jump)
    case 0x57 => Some(JumpI)
    case 0x58 => Some(PC)
    case 0x5a => Some(Gas)
    case 0x5b => Some(JumpDest)
    case 0xf3 => Some(Return)
    case 0xfd => Some(Revert)
    case 0xfe => Some(Invalid)
    case _ => match InertTier(b) case Some(t) => Some(Inert(t)) case None => None
  }

  /** The price class of the known bytes the machine does not implement. */
  function InertTier(b: Byte): Option<Tier> {
    if b in {0x06, 0x30, 0x32, 0x33, 0x36, 0x38, 0x3d, 0x59} then Some(Base)
    else if b in {0x05, 0x07, 0x0b, 0x12, 0x13, 0x1a, 0x1b, 0x1c, 0x1d} then Some(Low)
    else if b == 0x0a then Some(Exp)
    else if b == 0x54 then Some(Sload)
    else if b == 0x55 then Some(SstoreSet)
    else if b in {0x31, 0x3b, 0x3f} then Some(Balance)
    else if b in {0xf1, 0xf2, 0xf4, 0xfa} then Some(Call)
    else if b in {0xf0, 0xf5} then Some(Create)
    else if b == 0xff then Some(SelfDestruct)
    else if b in {0x08, 0x09, 0x34, 0x35, 0x37, 0x39, 0x3a, 0x3c, 0x3e} then Some(Mid)
    else if 0x40 <= b <= 0x48 || 0x60 <= b <= 0xa4 then Some(Mid)
    else None
  }

  /** A byte that decodes to the opcode. */
  function ByteOf(op: Opcode): (b: Byte)
    ensures FromByte(b) == Some(op)
  {
    match op
    case Stop => 0x00
    case Add => 0x01
    case Mul => 0x02
    case Sub => 0x03
    case Div => 0x04
    case Lt => 0x10
    case Gt => 0x11
    case Eq => 0x14
    case IsZero => 0x15
    case And => 0x16
    case Or => 0x17
    case Xor => 0x18
    case Not => 0x19
    case Sha3 => 0x20
    case Pop => 0x50
    case MLoad => 0x51
    case MStore => 0x52
    case MStore8 => 0x53
    case Jump => 0x56
    case JumpI => 0x57
    case PC => 0x58
    case Gas => 0x5a
    case JumpDest => 0x5b
    case Return => 0xf3
    case Revert => 0xfd
    case Invalid => 0xfe
    case Inert(tier) => TierByte(tier)
  }

  function TierByte(t: Tier): (b: Byte)
    ensures FromByte(b) == Some(Inert(t))
  {
    match t
    case Base => 0x06
    case Low => 0x05
    case Mid => 0x08
    case Exp => 0x0a
    case Sload => 0x54
    case SstoreSet => 0x55
    case Balance => 0x31
    case Call => 0xf1
    case Create => 0xf0
    case SelfDestruct => 0xff
  }

  function TierCost(t: Tier, s: Schedule): nat {
    match t
    case Base => s.base
    case Low => s.low
    case Mid => s.mid
    case Exp => s.exp
    case Sload => s.sload
    case SstoreSet => s.sstoreSet
    case Balance => s.balance
    case Call => s.call
    case Create => s.create
    case SelfDestruct => s.selfdestruct
  }

  function GasCost(op: Opcode, s: Schedule): nat {
    match op
    case Stop | Invalid | Return | Revert => 0
    case JumpDest => 1
    case Jump | JumpI => s.mid
    case Sha3 => s.sha3
    case MLoad | MStore | MStore8 => s.veryLow
    case Inert(t) => TierCost(t, s)
    case _ => s.base
  }

  // ----- the machine

  datatype Error =
    | InvalidOpcode(byte: Byte) | OutOfGas(used: nat, limit: nat) | StackOverflow | StackUnderflow
    | InvalidJump | Reverted(reason: seq<Byte>) | Aborted

  datatype Machine = Machine(pc: nat, stack: seq<Word>, memory: seq<Byte>, gasUsed: nat,
                             returnData: seq<Byte>, stopped: bool)

  datatype Program = Program(code: seq<Byte>, schedule: Schedule, keccak: seq<Byte> -> Word)

  datatype Outcome = Outcome(next: Machine, error: Option<Error>)

  const START := Machine(0, [], [], 0, [], false)

  function Ok(m: Machine): Outcome { Outcome(m, None) }

  function Fail(m: Machine, e: Error): Outcome { Outcome(m, Some(e)) }

  /** Charging wraps at 64 bits. */
  function Charge(used: nat, cost: nat, limit: nat): Option<nat> {
    var total := (used + cost) % W.LIMB;
    if total > limit then None else Some(total)
  }

  /** Bytes past the end read as zero. */
  function Read(memory: seq<Byte>, offset: nat, size: nat): (bytes: seq<Byte>)
    ensures |bytes| == size
  {
    seq(size, i requires 0 <= i < size => if offset + i < |memory| then memory[offset + i] else 0)
  }

  /** Writing past the end grows memory with zeros. */
  function Write(memory: seq<Byte>, offset: nat, data: seq<Byte>): (after: seq<Byte>)
    ensures |after| >= |memory|
  {
    var end := offset + |data|;
    var size := if end > |memory| then end else |memory|;
    seq(size, i requires 0 <= i < size =>
      if offset <= i < end then data[i - offset] else if i < |memory| then memory[i] else 0)
  }

  function Push(m: Machine, w: Word): Outcome {
    if |m.stack| >= MAX_STACK then Fail(m, StackOverflow) else Ok(m.(stack := m.stack + [w]))
  }

  function Flag(b: bool): Word {
    if b then W.One() else W.Zero()
  }

  function Arity(op: Opcode): nat {
    match op
    case Add | Mul | Sub | Div | Lt | Gt | Eq | And | Or | Xor | Sha3 | MStore | MStore8 | JumpI | Return | Revert => 2
    case IsZero | Not | Pop | MLoad | Jump => 1
    case _ => 0
  }

  predicate IsBinary(op: Opcode) {
    op in {Add, Mul, Sub, Div, Lt, Gt, Eq, And, Or, Xor}
  }

  function Binary(op: Opcode, a: Word, b: Word): Word {
    match op
    case Add => W.Add(a, b)
    case Mul => W.Mul(a, b)
    case Sub => W.Sub(a, b)
    case Div => W.Div(a, b)
    case Lt => Flag(W.Lt(a, b))
    case Gt => Flag(W.Lt(b, a))
    case Eq => Flag(a == b)
    case And => W.Zip(W.ByteAnd, a, b)
    case Or => W.Zip(W.ByteOr, a, b)
    case _ => W.Zip(W.ByteXor, a, b)
  }

  function Store(m: Machine, offset: nat, data: seq<Byte>): Outcome {
    if offset + |data| > MAX_ALLOC then Fail(m, Aborted)
    else Ok(m.(memory := Write(m.memory, offset, data)))
  }

  function Jumped(code: seq<Byte>, m: Machine, dest: nat): Outcome {
    if dest >= |code| || code[dest] != JUMPDEST_BYTE then Fail(m, InvalidJump) else Ok(m.(pc := dest))
  }

  function NumberWord(n: nat): Word {
    W.FromNat(n % W.LIMB)
  }

  function Remaining(limit: nat, used: nat): nat {
    if used <= limit then limit - used else 0
  }

  /** The effect of an opcode once its operands, a on top and b below, are popped. */
  function Act(p: Program, limit: nat, m: Machine, op: Opcode, a: Word, b: Word): Outcome {
    match op
    case Stop => Ok(m.(stopped := true))
    case IsZero => Push(m, Flag(W.Value(a) == 0))
    case Not => Push(m, W.Complement(a))
    case Pop => Ok(m)
    case MLoad => Push(m, Read(m.memory, W.ToIndex(a), 32))
    case MStore => Store(m, W.ToIndex(a), b)
    case MStore8 => Store(m, W.ToIndex(a), [b[31]])
    case Jump => Jumped(p.code, m, W.ToIndex(a))
    case JumpI => if W.Value(b) == 0 then Ok(m) else Jumped(p.code, m, W.ToIndex(a))
    case PC => Push(m, NumberWord(m.pc))
    case Gas => Push(m, NumberWord(Remaining(limit, m.gasUsed)))
    case Sha3 =>
      if W.ToIndex(b) > MAX_ALLOC then Fail(m, Aborted)
      else Push(m, p.keccak(Read(m.memory, W.ToIndex(a), W.ToIndex(b))))
    case Return =>
      if W.ToIndex(b) > MAX_ALLOC then Fail(m, Aborted)
      else Ok(m.(returnData := Read(m.memory, W.ToIndex(a), W.ToIndex(b)), stopped := true))
    case Revert =>
      if W.ToIndex(b) > MAX_ALLOC then Fail(m, Aborted)
      else Fail(m, Reverted(Read(m.memory, W.ToIndex(a), W.ToIndex(b))))
    case Invalid => Fail(m, InvalidOpcode(0xfe))
    case JumpDest => Ok(m)
    case Inert(_) => Ok(m)
    case _ => Push(m, Binary(op, a, b))
  }

  /** The operand `depth` below the top. */
  function Operand(m: Machine, depth: nat): Word {
    if depth < |m.stack| then m.stack[|m.stack| - 1 - depth] else W.Zero()
  }

  function Popped(m: Machine, count: nat): Machine {
    m.(stack := if count <= |m.stack| then m.stack[..|m.stack| - count] else [])
  }

  /** Every opcode pops all its operands before doing anything else; running short empties the stack. */
  function Exec(p: Program, limit: nat, m: Machine, op: Opcode): Outcome {
    if |m.stack| < Arity(op) then Fail(Popped(m, Arity(op)), StackUnderflow)
    else Act(p, limit, Popped(m, Arity(op)), op, Operand(m, 0), Operand(m, 1))
  }

  function Charged(m: Machine, total: nat): Machine {
    m.(gasUsed := total, pc := m.pc + 1)
  }

  /** An instruction that was charged executes; one that could not be charged fails. */
  function Pay(p: Program, limit: nat, m: Machine, op: Opcode, charge: Option<nat>): Outcome {
    match charge
    case None => Fail(m, OutOfGas(m.gasUsed, limit))
    case Some(total) => Exec(p, limit, Charged(m, total), op)
  }

  /** One decoded instruction: charge it, advance, execute. */
  function Perform(p: Program, limit: nat, m: Machine, op: Opcode): Outcome {
    Pay(p, limit, m, op, Charge(m.gasUsed, GasCost(op, p.schedule), limit))
  }

  function Step(p: Program, limit: nat, m: Machine): Outcome
    requires m.pc < |p.code|
  {
    match FromByte(p.code[m.pc])
    case None => Fail(m, InvalidOpcode(p.code[m.pc]))
    case Some(op) => Perform(p, limit, m, op)
  }

  /** An opcode does not look at more operands than it pops. */
  lemma ActIgnoresUnused(p: Program, limit: nat, m: Machine, op: Opcode, a: Word, b: Word, a': Word, b': Word)
    requires Arity(op) >= 1 ==> a == a'
    requires Arity(op) == 2 ==> b == b'
    ensures Act(p, limit, m, op, a, b) == Act(p, limit, m, op, a', b')
  {}

  // ----- memory laws

  /** What was written is read back, and nothing else changes. */
  lemma ReadAfterWrite(memory: seq<Byte>, offset: nat, data: seq<Byte>, at: nat, size: nat)
    ensures Read(Write(memory, offset, data), offset, |data|) == data
    ensures at + size <= offset || offset + |data| <= at ==>
              Read(Write(memory, offset, data), at, size) == Read(memory, at, size)
  {}

  // ----- every step keeps the machine within bounds and makes progress

  /** No charge of this schedule can run past 64 bits under this limit. */
  ghost predicate NoWrap(p: Program, limit: nat) {
    forall op :: limit + GasCost(op, p.schedule) < W.LIMB
  }

  ghost predicate Inv(p: Program, limit: nat, m: Machine) {
    m.gasUsed <= limit && |m.stack| <= MAX_STACK && m.pc <= |p.code|
  }

  predicate OnJumpDest(p: Program, pc: nat) {
    pc < |p.code| && p.code[pc] == JUMPDEST_BYTE
  }

  /** What one effect may change: control, within the code; the stack, by one word. */
  ghost predicate SmallEffect(p: Program, m: Machine, op: Opcode, next: Machine) {
    && next.gasUsed == m.gasUsed && |next.stack| <= |m.stack| + 1
    && (|next.stack| > |m.stack| ==> |m.stack| < MAX_STACK)
    && (next.pc == m.pc || (op in {Jump, JumpI} && OnJumpDest(p, next.pc)))
  }

  lemma PushIsSmall(p: Program, m: Machine, op: Opcode, w: Word)
    ensures SmallEffect(p, m, op, Push(m, w).next)
  {}

  lemma StoreIsSmall(p: Program, m: Machine, op: Opcode, offset: nat, data: seq<Byte>)
    ensures SmallEffect(p, m, op, Store(m, offset, data).next)
  {}

  predicate Reads(op: Opcode) {
    op in {Sha3, Return, Revert}
  }

  lemma ReadingIsSmall(p: Program, limit: nat, m: Machine, op: Opcode, a: Word, b: Word)
    requires Reads(op)
    ensures SmallEffect(p, m, op, Act(p, limit, m, op, a, b).next)
  {}

  predicate Steers(op: Opcode) {
    op in {Stop, Pop, Jump, JumpI, Invalid, JumpDest} || op.Inert?
  }

  lemma SteeringIsSmall(p: Program, limit: nat, m: Machine, op: Opcode, a: Word, b: Word)
    requires Steers(op)
    ensures SmallEffect(p, m, op, Act(p, limit, m, op, a, b).next)
  {}

  lemma BinaryIsSmall(p: Program, limit: nat, m: Machine, op: Opcode, a: Word, b: Word)
    requires IsBinary(op)
    ensures SmallEffect(p, m, op, Act(p, limit, m, op, a, b).next)
  {
    PushIsSmall(p, m, op, Binary(op, a, b));
  }

  lemma ActEffect(p: Program, limit: nat, m: Machine, op: Opcode, a: Word, b: Word)
    ensures SmallEffect(p, m, op, Act(p, limit, m, op, a, b).next)
  {
    if Reads(op) {
      ReadingIsSmall(p, limit, m, op, a, b);
    } else if Steers(op) {
      SteeringIsSmall(p, limit, m, op, a, b);
    } else if IsBinary(op) {
      BinaryIsSmall(p, limit, m, op, a, b);
    } else {
      match op {
        case MStore => StoreIsSmall(p, m, op, W.ToIndex(a), b);
        case MStore8 => StoreIsSmall(p, m, op, W.ToIndex(a), [b[31]]);
        case IsZero => PushIsSmall(p, m, op, Flag(W.Value(a) == 0));
        case Not => PushIsSmall(p, m, op, W.Complement(a));
        case MLoad => PushIsSmall(p, m, op, Read(m.memory, W.ToIndex(a), 32));
        case PC => PushIsSmall(p, m, op, NumberWord(m.pc));
        case Gas => PushIsSmall(p, m, op, NumberWord(Remaining(limit, m.gasUsed)));
      }
    }
  }

  /** What executing an opcode leaves alone, and where control can go. */
  ghost predicate Tame(p: Program, m: Machine, op: Opcode, next: Machine) {
    next.gasUsed == m.gasUsed && |next.stack| <= MAX_STACK &&
    (next.pc == m.pc || (op in {Jump, JumpI} && OnJumpDest(p, next.pc)))
  }

  lemma ExecIsTame(p: Program, limit: nat, m: Machine, op: Opcode)
    requires |m.stack| <= MAX_STACK
    ensures Tame(p, m, op, Exec(p, limit, m, op).next)
  {
    ActEffect(p, limit, Popped(m, Arity(op)), op, Operand(m, 0), Operand(m, 1));
  }

  lemma ChargeWithoutWrap(used: nat, cost: nat, limit: nat)
    requires used + cost < W.LIMB
    ensures Charge(used, cost, limit) == if used + cost > limit then None else Some(used + cost)
  {}

  /** Where an instruction leaves the machine, given what it was charged. */
  ghost predicate Settled(p: Program, m: Machine, op: Opcode, charge: Option<nat>, o: Outcome) {
    match charge
    case None => o.next == m && o.error.Some?
    case Some(total) =>
      o.next.gasUsed == total && (o.next.pc == m.pc + 1 || (op in {Jump, JumpI} && OnJumpDest(p, o.next.pc)))
  }

  lemma PayEffect(p: Program, limit: nat, m: Machine, op: Opcode, charge: Option<nat>)
    requires Inv(p, limit, m) && m.pc < |p.code| && (charge.Some? ==> charge.value <= limit)
    ensures var o := Pay(p, limit, m, op, charge); Inv(p, limit, o.next) && Settled(p, m, op, charge, o)
  {
    if charge.Some? {
      ExecIsTame(p, limit, Charged(m, charge.value), op);
    }
  }

  ghost function ChargeFor(p: Program, limit: nat, m: Machine, op: Opcode): Option<nat> {
    var total := m.gasUsed + GasCost(op, p.schedule);
    if total > limit then None else Some(total)
  }

  lemma ChargeIs(p: Program, limit: nat, m: Machine, op: Opcode)
    requires NoWrap(p, limit) && m.gasUsed <= limit
    ensures Charge(m.gasUsed, GasCost(op, p.schedule), limit) == ChargeFor(p, limit, m, op)
  {
    ChargeWithoutWrap(m.gasUsed, GasCost(op, p.schedule), limit);
  }

  lemma PerformKeeps(p: Program, limit: nat, m: Machine, op: Opcode)
    requires Inv(p, limit, m) && m.pc < |p.code|
    ensures Inv(p, limit, Perform(p, limit, m, op).next)
  {
    PayEffect(p, limit, m, op, Charge(m.gasUsed, GasCost(op, p.schedule), limit));
  }

  /** Every step stays in bounds, whatever code, limit and schedule, wrapped charges included. */
  lemma StepKeeps(p: Program, limit: nat, m: Machine)
    requires Inv(p, limit, m) && m.pc < |p.code|
    ensures Inv(p, limit, Step(p, limit, m).next)
  {
    var op := FromByte(p.code[m.pc]);
    if op.Some? {
      PerformKeeps(p, limit, m, op.value);
    }
  }

  lemma PerformEffect(p: Program, limit: nat, m: Machine, op: Opcode)
    requires NoWrap(p, limit) && Inv(p, limit, m) && m.pc < |p.code|
    ensures Settled(p, m, op, ChargeFor(p, limit, m, op), Perform(p, limit, m, op))
  {
    ChargeIs(p, limit, m, op);
    PayEffect(p, limit, m, op, Charge(m.gasUsed, GasCost(op, p.schedule), limit));
  }

  lemma StepClimbs(p: Program, limit: nat, m: Machine)
    requires NoWrap(p, limit) && Inv(p, limit, m) && m.pc < |p.code|
    ensures m.gasUsed <= Step(p, limit, m).next.gasUsed
  {
    var op := FromByte(p.code[m.pc]);
    if op.Some? {
      PerformEffect(p, limit, m, op.value);
    }
  }

  /** Gas left, whether off a JUMPDEST, code left. */
  ghost function RankOf(p: Program, limit: nat, m: Machine): Rank {
    Rank(Remaining(limit, m.gasUsed), if OnJumpDest(p, m.pc) then 0 else 1, Remaining(|p.code|, m.pc))
  }

  ghost predicate Descends(p: Program, limit: nat, m: Machine, next: Machine) {
    Below(RankOf(p, limit, next), RankOf(p, limit, m))
  }

  lemma PerformDescends(p: Program, limit: nat, m: Machine, op: Opcode)
    requires NoWrap(p, limit) && Inv(p, limit, m) && m.pc < |p.code|
    requires OnJumpDest(p, m.pc) ==> op == JumpDest
    requires Perform(p, limit, m, op).error == None
    ensures Descends(p, limit, m, Perform(p, limit, m, op).next)
  {
    PerformEffect(p, limit, m, op);
  }

  /** The rank (gas left, off a JUMPDEST, code left) drops lexicographically at every step that does not fail:
      a free jump can only lead onto a JUMPDEST, and leaving a JUMPDEST costs gas whatever the schedule says. */
  lemma StepDescends(p: Program, limit: nat, m: Machine)
    requires NoWrap(p, limit) && Inv(p, limit, m) && m.pc < |p.code|
    requires Step(p, limit, m).error == None
    ensures Descends(p, limit, m, Step(p, limit, m).next)
  {
    PerformDescends(p, limit, m, FromByte(p.code[m.pc]).value);
  }

  // ----- what the limit changes in one step

  /** Apart from GAS, an opcode's effect does not look at the limit. */
  lemma ExecIgnoresLimit(p: Program, l: nat, l': nat, m: Machine, op: Opcode)
    requires op != Gas
    ensures Exec(p, l, m, op) == Exec(p, l', m, op)
  {}

  ghost predicate RanOut(o: Outcome) {
    o.error.Some? && o.error.value.OutOfGas?
  }

  /** Outcome b is outcome a, unless a used more than the limit; then b is out of gas. */
  ghost predicate SameWithin(a: Outcome, b: Outcome, limit: nat) {
    if a.next.gasUsed <= limit then b == a else RanOut(b)
  }

  lemma PayUnderTwoLimits(p: Program, l: nat, l': nat, m: Machine, op: Opcode,
                          charge: Option<nat>, charge': Option<nat>)
    requires op != Gas && |m.stack| <= MAX_STACK
    requires charge.Some? && charge' == if charge.value <= l' then charge else None
    ensures SameWithin(Pay(p, l, m, op, charge), Pay(p, l', m, op, charge'), l')
  {
    ExecIsTame(p, l, Charged(m, charge.value), op);
    ExecIgnoresLimit(p, l, l', Charged(m, charge.value), op);
  }

  /** Under another limit an instruction other than GAS does the same, unless that limit cannot pay for it.
      The charged total, wrapped or not, is the same under both. */
  lemma PerformUnderTwoLimits(p: Program, l: nat, l': nat, m: Machine, op: Opcode)
    requires op != Gas && |m.stack| <= MAX_STACK && !RanOut(Perform(p, l, m, op))
    ensures SameWithin(Perform(p, l, m, op), Perform(p, l', m, op), l')
  {
    var cost := GasCost(op, p.schedule);
    PayUnderTwoLimits(p, l, l', m, op, Charge(m.gasUsed, cost, l), Charge(m.gasUsed, cost, l'));
  }

  lemma StepUnderTwoLimits(p: Program, l: nat, l': nat, m: Machine)
    requires GAS_BYTE !in p.code && m.pc < |p.code| && |m.stack| <= MAX_STACK && m.gasUsed <= l'
    requires !RanOut(Step(p, l, m))
    ensures SameWithin(Step(p, l, m), Step(p, l', m), l')
  {
    var byte := p.code[m.pc];
    assert byte != GAS_BYTE;
    var op := FromByte(byte);
    if op.Some? {
      PerformUnderTwoLimits(p, l, l', m, op.value);
    }
  }

  // ----- moves of a run

  predicate Running(p: Program, m: Machine) {
    !m.stopped && m.pc < |p.code|
  }

  /** One turn of the run loop: go on, or halt at the end of the code, on a stop, or on an error. */
  function MoveOf(p: Program, limit: nat, m: Machine): Move<Machine, Outcome> {
    if !Running(p, m) then Halt(Ok(m))
    else
      var o := Step(p, limit, m);
      if o.error.Some? then Halt(o) else Go(o.next)
  }

  function Moves(p: Program, limit: nat): Machine -> Move<Machine, Outcome> {
    m => MoveOf(p, limit, m)
  }

  type Mover = Machine -> Move<Machine, Outcome>

  /** Marks the states whose move is looked up. */
  ghost predicate Looked(m: Machine) { true }

  /** The mover is the machine. Lookups are marked, so that a chain of moves is followed without executing it again. */
  ghost predicate Follows(f: Mover, p: Program, limit: nat) {
    forall m {:trigger Looked(m)} :: Looked(m) ==> f(m) == MoveOf(p, limit, m)
  }

  lemma MovesFollow(p: Program, limit: nat)
    ensures Follows(Moves(p, limit), p, limit)
  {}

  /** A machine that is not running has its outcome already. */
  lemma AtRest(f: Mover, p: Program, limit: nat, m: Machine, n: nat, o: Outcome)
    requires Follows(f, p, limit) && Ends(f, m, n, o) && !Running(p, m)
    ensures o == Ok(m)
  {
    assert Looked(m);
  }

  /** Where a step leads: on, or to the outcome. */
  ghost predicate Stepped(p: Program, limit: nat, m: Machine, r: Outcome) {
    match MoveOf(p, limit, m)
    case Go(next) => r == Ok(next)
    case Halt(o) => r.error.Some? && r == o
  }

  lemma OneTurn(f: Mover, p: Program, limit: nat, m: Machine, n: nat, o: Outcome, r: Outcome)
    requires Follows(f, p, limit) && Ends(f, m, n, o) && Stepped(p, limit, m, r)
    ensures if r.error == None then n > 0 && Ends(f, r.next, n - 1, o) else r == o
  {
    assert Looked(m);
    EndsMove(f, m, n, o, MoveOf(p, limit, m));
  }

  // ----- the machine as the node runs it

  method ZipBytes(f: (Byte, Byte) -> Byte, a: Word, b: Word) returns (r: Word)
    ensures r == W.Zip(f, a, b)
  {
    var bytes: seq<Byte> := [];
    for i := 0 to 32
      invariant |bytes| == i && forall k :: 0 <= k < i ==> bytes[k] == f(a[k], b[k])
    {
      bytes := bytes + [f(a[i], b[i])];
    }
    r := bytes;
  }

  method ComputeBinary(op: Opcode, a: Word, b: Word) returns (r: Word)
    requires IsBinary(op)
    ensures r == Binary(op, a, b)
  {
    if op == Add {
      r := W.AddWords(a, b);
    } else if op == Mul {
      r := W.Mul(a, b);
    } else if op == Sub {
      r := W.SubWords(a, b);
    } else if op == Div {
      r := W.Div(a, b);
    } else if op == Lt {
      var less := W.LessThan(a, b);
      r := Flag(less);
    } else if op == Gt {
      var greater := W.GreaterThan(a, b);
      r := Flag(greater);
    } else if op == Eq {
      r := Flag(a == b);
    } else if op == And {
      r := ZipBytes(W.ByteAnd, a, b);
    } else if op == Or {
      r := ZipBytes(W.ByteOr, a, b);
    } else {
      r := ZipBytes(W.ByteXor, a, b);
    }
  }

  class VM {
    const program: Program
    const gasLimit: nat
    var pc: nat
    var stack: seq<Word>
    var memory: seq<Byte>
    var gasUsed: nat
    var returnData: seq<Byte>
    var stopped: bool

    ghost function State(): Machine
      reads this
    {
      Machine(pc, stack, memory, gasUsed, returnData, stopped)
    }

    constructor (program: Program, gasLimit: nat)
      ensures this.program == program && this.gasLimit == gasLimit && State() == START
    {
      this.program, this.gasLimit := program, gasLimit;
      pc, stack, memory, gasUsed, returnData, stopped := 0, [], [], 0, [], false;
    }

    method PushWord(w: Word) returns (e: Option<Error>)
      modifies `stack
      ensures Outcome(State(), e) == Push(old(State()), w)
    {
      if |stack| >= MAX_STACK {
        return Some(StackOverflow);
      }
      stack := stack + [w];
      return None;
    }

    /** Takes `count` words; running short empties the stack, as popping one by one does. */
    method PopWords(count: nat) returns (ok: bool, words: seq<Word>)
      modifies `stack
      ensures ok == (count <= |old(stack)|)
      ensures ok ==> |words| == count && stack == old(stack)[..|old(stack)| - count]
                     && forall i :: 0 <= i < count ==> words[i] == old(stack)[|old(stack)| - 1 - i]
      ensures !ok ==> stack == []
    {
      words := [];
      while |words| < count
        invariant |words| <= count && |words| + |stack| == |old(stack)|
        invariant stack == old(stack)[..|stack|]
        invariant forall i :: 0 <= i < |words| ==> words[i] == old(stack)[|old(stack)| - 1 - i]
        decreases count - |words|
      {
        if stack == [] {
          return false, words;
        }
        words := words + [stack[|stack| - 1]];
        stack := stack[..|stack| - 1];
      }
      return true, words;
    }

    method ReadMemory(offset: nat, size: nat) returns (bytes: seq<Byte>)
      ensures bytes == Read(memory, offset, size)
    {
      if offset >= |memory| {
        return seq(size, _ => 0);
      }
      var end := if offset + size < |memory| then offset + size else |memory|;
      bytes := memory[offset..end];
      bytes := bytes + seq(size - |bytes|, _ => 0);
    }

    method WriteMemory(offset: nat, data: seq<Byte>) returns (e: Option<Error>)
      modifies `memory
      ensures Outcome(State(), e) == Store(old(State()), offset, data)
    {
      var end := offset + |data|;
      if end > MAX_ALLOC {
        return Some(Aborted);
      }
      if end > |memory| {
        memory := memory + seq(end - |memory|, _ => 0);
      }
      memory := memory[..offset] + data + memory[end..];
      return None;
    }

    method JumpTo(dest: nat) returns (e: Option<Error>)
      modifies `pc
      ensures Outcome(State(), e) == Jumped(program.code, old(State()), dest)
    {
      if dest >= |program.code| || program.code[dest] != JUMPDEST_BYTE {
        return Some(InvalidJump);
      }
      pc := dest;
      return None;
    }

    method Execute(op: Opcode, ghost before: Machine) returns (e: Option<Error>)
      requires State() == before
      modifies this
      ensures Outcome(State(), e) == Exec(program, gasLimit, before, op)
    {
      var ok, words := PopWords(Arity(op));
      assert State() == Popped(before, Arity(op));
      if !ok {
        return Some(StackUnderflow);
      }
      var a: Word := if |words| >= 1 then words[0] else W.Zero();
      var b: Word := if |words| >= 2 then words[1] else W.Zero();
      ActIgnoresUnused(program, gasLimit, Popped(before, Arity(op)), op, a, b, Operand(before, 0), Operand(before, 1));
      e := Effect(op, a, b, Popped(before, Arity(op)));
    }

    method Effect(op: Opcode, a: Word, b: Word, ghost m: Machine) returns (e: Option<Error>)
      requires State() == m
      modifies this
      ensures Outcome(State(), e) == Act(program, gasLimit, m, op, a, b)
    {
      e := None;
      match op {
        case Stop =>
          stopped := true;
        case IsZero =>
          var zero := W.IsZero(a);
          e := PushWord(Flag(zero));
        case Not =>
          e := PushWord(W.Complement(a));
        case Pop =>
        case MLoad =>
          var word := ReadMemory(W.ToIndex(a), 32);
          e := PushWord(word);
        case MStore =>
          e := WriteMemory(W.ToIndex(a), b);
        case MStore8 =>
          e := WriteMemory(W.ToIndex(a), [b[31]]);
        case Jump =>
          e := JumpTo(W.ToIndex(a));
        case JumpI =>
          var zero := W.IsZero(b);
          if !zero {
            e := JumpTo(W.ToIndex(a));
          }
        case PC =>
          e := PushWord(NumberWord(pc));
        case Gas =>
          e := PushWord(NumberWord(Remaining(gasLimit, gasUsed)));
        case Sha3 =>
          e := ReadingEffect(op, a, b, m);
        case Return =>
          e := ReadingEffect(op, a, b, m);
        case Revert =>
          e := ReadingEffect(op, a, b, m);
        case Invalid =>
          e := Some(InvalidOpcode(0xfe));
        case JumpDest =>
        case Inert(_) =>
        case _ =>
          var r := ComputeBinary(op, a, b);
          e := PushWord(r);
      }
    }

    /** The three opcodes that read a stretch of memory. */
    method ReadingEffect(op: Opcode, a: Word, b: Word, ghost m: Machine) returns (e: Option<Error>)
      requires op == Sha3 || op == Return || op == Revert
      requires State() == m
      modifies this
      ensures Outcome(State(), e) == Act(program, gasLimit, m, op, a, b)
    {
      e := None;
      var offset, size := W.ToIndex(a), W.ToIndex(b);
      if size > MAX_ALLOC {
        return Some(Aborted);
      }
      var data := ReadMemory(offset, size);
      if op == Sha3 {
        e := PushWord(program.keccak(data));
      } else if op == Return {
        returnData := data;
        stopped := true;
      } else {
        e := Some(Reverted(data));
      }
    }

    method PerformOp(op: Opcode, ghost before: Machine) returns (e: Option<Error>)
      requires State() == before
      modifies this
      ensures Outcome(State(), e) == Perform(program, gasLimit, before, op)
    {
      var total := Charge(gasUsed, GasCost(op, program.schedule), gasLimit);
      if total.None? {
        return Some(OutOfGas(gasUsed, gasLimit));
      }
      gasUsed := total.value;
      pc := pc + 1;
      ghost var charged := Charged(before, total.value);
      assert Perform(program, gasLimit, before, op) == Exec(program, gasLimit, charged, op);
      e := Execute(op, charged);
    }

    method StepOnce() returns (e: Option<Error>)
      requires pc < |program.code|
      modifies this
      ensures Outcome(State(), e) == Step(program, gasLimit, old(State()))
    {
      var byte := program.code[pc];
      var op := FromByte(byte);
      if op.None? {
        return Some(InvalidOpcode(byte));
      }
      e := PerformOp(op.value, State());
    }

    method Turn() returns (e: Option<Error>)
      requires Running(program, State())
      modifies this
      ensures Stepped(program, gasLimit, old(State()), Outcome(State(), e))
    {
      e := StepOnce();
    }

    /** Whenever the run ends at all, the loop does, with the outcome of the run. */
    method RunToEnd(ghost n: nat, ghost o: Outcome) returns (e: Option<Error>)
      requires Ends(Moves(program, gasLimit), State(), n, o)
      modifies this
      ensures Outcome(State(), e) == o
    {
      MovesFollow(program, gasLimit);
      e := RunAlong(Moves(program, gasLimit), n, o);
    }

    method RunAlong(ghost f: Mover, ghost n: nat, ghost o: Outcome) returns (e: Option<Error>)
      requires Follows(f, program, gasLimit) && Ends(f, State(), n, o)
      modifies this
      ensures Outcome(State(), e) == o
    {
      ghost var left := n;
      while !stopped && pc < |program.code|
        invariant Ends(f, State(), left, o)
        decreases left
      {
        ghost var before := State();
        e := Turn();
        OneTurn(f, program, gasLimit, before, left, o, Outcome(State(), e));
        if e.Some? {
          return;
        }
        left := left - 1;
      }
      AtRest(f, program, gasLimit, State(), left, o);
      return None;
    }
  }
}
