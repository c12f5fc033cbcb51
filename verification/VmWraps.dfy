/** What happens once a charge can wrap: a short program that runs for ever and whose gas used goes down. */
module VmWraps {
  import opened Base
  import opened Runs
  import opened Vm
  import opened VmRuns
  import W = Words

  // ----- single moves

  function At(pc: nat, stack: seq<Word>, gas: nat): Machine {
    Machine(pc, stack, [], gas, [], false)
  }

  lemma OpMove(p: Program, limit: nat, m: Machine, op: Opcode, total: nat, next: Machine)
    requires Running(p, m) && FromByte(p.code[m.pc]) == Some(op)
    requires Charge(m.gasUsed, GasCost(op, p.schedule), limit) == Some(total)
    requires Exec(p, limit, Charged(m, total), op) == Ok(next)
    ensures MoveOf(p, limit, m) == Go(next)
  {}

  /** A byte that only costs gas. */
  predicate Idle(op: Opcode) {
    op == JumpDest || op.Inert?
  }

  lemma IdleMove(p: Program, limit: nat, m: Machine, op: Opcode, total: nat)
    requires Running(p, m) && Idle(op) && FromByte(p.code[m.pc]) == Some(op)
    requires Charge(m.gasUsed, GasCost(op, p.schedule), limit) == Some(total)
    ensures MoveOf(p, limit, m) == Go(m.(pc := m.pc + 1, gasUsed := total))
  {
    assert Exec(p, limit, Charged(m, total), op) == Ok(Charged(m, total));
  }

  /** The next instruction costs the base price, which the limit can pay. */
  ghost predicate Affords(p: Program, limit: nat, m: Machine) {
    Running(p, m) && m.gasUsed + p.schedule.base <= limit < W.LIMB
  }

  function Onward(m: Machine, stack: seq<Word>, price: nat): Machine {
    m.(pc := m.pc + 1, stack := stack, gasUsed := m.gasUsed + price)
  }

  lemma PcMove(p: Program, limit: nat, m: Machine)
    requires Affords(p, limit, m) && p.code[m.pc] == 0x58 && |m.stack| < MAX_STACK
    ensures MoveOf(p, limit, m) == Go(Onward(m, m.stack + [NumberWord(m.pc + 1)], p.schedule.base))
  {
    ChargeWithoutWrap(m.gasUsed, p.schedule.base, limit);
    var total := m.gasUsed + p.schedule.base;
    var next := Onward(m, m.stack + [NumberWord(m.pc + 1)], p.schedule.base);
    assert Exec(p, limit, Charged(m, total), PC) == Ok(next);
    OpMove(p, limit, m, PC, total, next);
  }

  lemma SubMove(p: Program, limit: nat, m: Machine, b: Word, a: Word)
    requires Affords(p, limit, m) && p.code[m.pc] == 0x03 && m.stack == [b, a]
    ensures MoveOf(p, limit, m) == Go(Onward(m, [W.Sub(a, b)], p.schedule.base))
  {
    ChargeWithoutWrap(m.gasUsed, p.schedule.base, limit);
    var total := m.gasUsed + p.schedule.base;
    var charged, next := Charged(m, total), Onward(m, [W.Sub(a, b)], p.schedule.base);
    assert Popped(charged, 2).stack == [];
    assert [] + [W.Sub(a, b)] == [W.Sub(a, b)];
    assert Exec(p, limit, charged, Sub) == Ok(next);
    OpMove(p, limit, m, Sub, total, next);
  }

  lemma PopMove(p: Program, limit: nat, m: Machine, w: Word, y: Word)
    requires Affords(p, limit, m) && p.code[m.pc] == 0x50 && m.stack == [w, y]
    ensures MoveOf(p, limit, m) == Go(Onward(m, [w], p.schedule.base))
  {
    ChargeWithoutWrap(m.gasUsed, p.schedule.base, limit);
    var total := m.gasUsed + p.schedule.base;
    var charged, next := Charged(m, total), Onward(m, [w], p.schedule.base);
    assert Popped(charged, 1).stack == [w];
    assert Exec(p, limit, charged, Pop) == Ok(next);
    OpMove(p, limit, m, Pop, total, next);
  }

  lemma JumpMove(p: Program, limit: nat, m: Machine, w: Word, dest: nat)
    requires Running(p, m) && p.code[m.pc] == 0x56 && m.gasUsed + p.schedule.mid <= limit < W.LIMB
    requires m.stack == [w] && W.ToIndex(w) == dest < |p.code| && p.code[dest] == JUMPDEST_BYTE
    ensures MoveOf(p, limit, m) == Go(m.(pc := dest, stack := [], gasUsed := m.gasUsed + p.schedule.mid))
  {
    ChargeWithoutWrap(m.gasUsed, p.schedule.mid, limit);
    var total := m.gasUsed + p.schedule.mid;
    var charged, next := Charged(m, total), m.(pc := dest, stack := [], gasUsed := total);
    assert Popped(charged, 1).stack == [];
    assert Exec(p, limit, charged, Jump) == Ok(next);
    OpMove(p, limit, m, Jump, total, next);
  }

  // ----- the dear instruction

  /** Opcodes the loop can be built around. */
  predicate Drivable(op: Opcode) {
    Idle(op) || op == MLoad || op == Sha3
  }

  /** A drivable opcode of the same price. */
  function Drive(op: Opcode): (drive: Opcode)
    ensures op !in {Stop, Return, Revert, Invalid} ==> Drivable(drive)
    ensures forall s :: GasCost(drive, s) == GasCost(op, s)
  {
    match op
    case MLoad | MStore | MStore8 => MLoad
    case Jump | JumpI => Inert(Mid)
    case Sha3 | JumpDest | Inert(_) | Stop | Return | Revert | Invalid => op
    case _ => Inert(Tier.Base)
  }

  /** SHA3 takes two operands and the others do with one, so for them the first byte only costs its price. */
  function Prelude(op: Opcode): Byte {
    if op == Sha3 then 0x58 else TierByte(Tier.Base)
  }

  ghost predicate Operands(op: Opcode, stack: seq<Word>, w: Word) {
    if op == Sha3 then |stack| == 3 && stack[0] == w && W.ToIndex(stack[1]) <= MAX_ALLOC
    else |stack| == 2 && stack[0] == w
  }

  lemma MLoadActs(p: Program, limit: nat, m: Machine, w: Word) returns (y: Word)
    requires Operands(MLoad, m.stack, w)
    ensures Exec(p, limit, m, MLoad) == Ok(m.(stack := [w, y]))
  {
    y := Read(m.memory, W.ToIndex(m.stack[1]), 32);
    assert Popped(m, 1).stack == [w];
    assert [w] + [y] == [w, y];
  }

  lemma Sha3Acts(p: Program, limit: nat, m: Machine, w: Word) returns (y: Word)
    requires Operands(Sha3, m.stack, w)
    ensures Exec(p, limit, m, Sha3) == Ok(m.(stack := [w, y]))
  {
    y := p.keccak(Read(m.memory, W.ToIndex(m.stack[2]), W.ToIndex(m.stack[1])));
    assert Popped(m, 2).stack == [w];
    assert [w] + [y] == [w, y];
  }

  lemma IdleActs(p: Program, limit: nat, m: Machine, op: Opcode)
    requires Idle(op)
    ensures Exec(p, limit, m, op) == Ok(m)
  {}

  lemma DearActs(p: Program, limit: nat, m: Machine, op: Opcode, w: Word) returns (y: Word)
    requires Drivable(op) && Operands(op, m.stack, w)
    ensures Exec(p, limit, m, op) == Ok(m.(stack := [w, y]))
  {
    if op == MLoad {
      y := MLoadActs(p, limit, m, w);
    } else if op == Sha3 {
      y := Sha3Acts(p, limit, m, w);
    } else {
      y := m.stack[1];
      assert m.stack == [w, y];
      IdleActs(p, limit, m, op);
    }
  }

  /** The dear instruction leaves one more word, whatever it is charged. */
  lemma DearMove(p: Program, limit: nat, m: Machine, op: Opcode, w: Word, total: nat) returns (y: Word)
    requires Running(p, m) && Drivable(op) && p.code[m.pc] == ByteOf(op) && Operands(op, m.stack, w)
    requires Charge(m.gasUsed, GasCost(op, p.schedule), limit) == Some(total)
    ensures MoveOf(p, limit, m) == Go(m.(pc := m.pc + 1, stack := [w, y], gasUsed := total))
  {
    y := DearActs(p, limit, Charged(m, total), op, w);
    OpMove(p, limit, m, op, total, Charged(m, total).(stack := [w, y]));
  }

  // ----- rows of JUMPDESTs

  function Strolled(m: Machine, i: nat): Machine {
    m.(pc := m.pc + i, gasUsed := m.gasUsed + i)
  }

  lemma StrollMove(p: Program, limit: nat, m: Machine, i: nat)
    requires !m.stopped && m.pc + i < |p.code| && p.code[m.pc + i] == JUMPDEST_BYTE && m.gasUsed + i < limit < W.LIMB
    ensures MoveOf(p, limit, Strolled(m, i)) == Go(Strolled(m, i + 1))
  {
    ChargeWithoutWrap(m.gasUsed + i, 1, limit);
    IdleMove(p, limit, Strolled(m, i), JumpDest, m.gasUsed + i + 1);
  }

  lemma StrollAlong(f: Machine -> Move<Machine, Outcome>, m: Machine, k: nat)
    requires forall i: nat :: i < k ==> f(Strolled(m, i)) == Go(Strolled(m, i + 1))
    ensures Reaches(f, m, k, Strolled(m, k))
  {
    var at := (i: nat) => Strolled(m, i);
    ReachesAlong(f, at, k);
    assert at(0) == m;
  }

  /** A stretch of JUMPDESTs uses one unit of gas a byte. */
  lemma Stroll(p: Program, limit: nat, m: Machine, k: nat)
    requires !m.stopped && m.pc + k <= |p.code| && m.gasUsed + k <= limit < W.LIMB
    requires forall i :: m.pc <= i < m.pc + k ==> p.code[i] == JUMPDEST_BYTE
    ensures Reaches(Moves(p, limit), m, k, Strolled(m, k))
  {
    forall i: nat | i < k ensures Moves(p, limit)(Strolled(m, i)) == Go(Strolled(m, i + 1)) {
      StrollMove(p, limit, m, i);
    }
    StrollAlong(Moves(p, limit), m, k);
  }

  // ----- the loop

  /** The shape of the loop: its dear instruction, where it starts, and how many JUMPDESTs fill it up. */
  datatype Plan = Plan(dear: Opcode, start: nat, fill: nat)

  function LastByte(plan: Plan): nat {
    plan.start + plan.fill + 9
  }

  function Filled(plan: Plan): nat {
    plan.start + 5 + plan.fill
  }

  /** JUMPDEST; PC JUMPDEST PC SUB, which leaves the number two; the filling. */
  ghost predicate LoopFront(code: seq<Byte>, start: nat, fill: nat) {
    && start + 5 + fill <= |code|
    && code[start] == JUMPDEST_BYTE && code[start + 1] == 0x58 && code[start + 2] == JUMPDEST_BYTE
    && code[start + 3] == 0x58 && code[start + 4] == 0x03
    && forall i :: start + 5 <= i < start + 5 + fill ==> code[i] == JUMPDEST_BYTE
  }

  /** Operands for the dear instruction, that instruction, a POP and the JUMP back. */
  ghost predicate LoopBack(code: seq<Byte>, filled: nat, dear: Opcode) {
    && filled + 5 <= |code|
    && code[filled] == Prelude(dear) && code[filled + 1] == 0x58 && code[filled + 2] == ByteOf(dear)
    && code[filled + 3] == 0x50 && code[filled + 4] == 0x56
  }

  /** Two bytes costing mid and base, then the loop, which starts at the third byte. */
  ghost predicate IsLoop(p: Program, plan: Plan) {
    && Drivable(plan.dear) && plan.start == 2 && |p.code| == LastByte(plan) + 1 <= MAX_ALLOC
    && p.code[0] == TierByte(Mid) && p.code[1] == TierByte(Tier.Base)
    && LoopFront(p.code, plan.start, plan.fill) && LoopBack(p.code, Filled(plan), plan.dear)
  }

  function Loop(s: Schedule, plan: Plan, keccak: seq<Byte> -> Word): Program {
    var lead := [TierByte(Mid), TierByte(Tier.Base), JUMPDEST_BYTE, 0x58, JUMPDEST_BYTE, 0x58, 0x03];
    var tail := [Prelude(plan.dear), 0x58, ByteOf(plan.dear), 0x50, 0x56];
    Program(lead + seq(plan.fill, _ => JUMPDEST_BYTE) + tail, s, keccak)
  }

  lemma LoopIsLoop(s: Schedule, plan: Plan, keccak: seq<Byte> -> Word)
    requires Drivable(plan.dear) && plan.start == 2 && LastByte(plan) < MAX_ALLOC
    ensures IsLoop(Loop(s, plan, keccak), plan)
  {}

  function Home(plan: Plan, gas: nat): Machine {
    At(plan.start, [], gas)
  }

  /** What a lap costs before the dear instruction is charged, and after it. */
  function HeadPrice(s: Schedule, fill: nat): nat {
    2 + 5 * s.base + fill
  }

  function TailPrice(s: Schedule): nat {
    s.base + s.mid
  }

  function LapPrice(s: Schedule, dear: Opcode, fill: nat): nat {
    HeadPrice(s, fill) + GasCost(dear, s) + TailPrice(s)
  }

  lemma NumberValue(n: nat, w: Word)
    requires n < W.LIMB && w == NumberWord(n)
    ensures W.Value(w) == n && W.ToIndex(w) == n
  {
    assert n % W.LIMB == n;
    W.SmallValueIndex(w, n);
  }

  // ----- the moves of one lap

  /** The loop is there, its mover runs it, and the limit pays for gas already used and what comes next. */
  ghost predicate On(f: Mover, p: Program, plan: Plan, limit: nat, paid: nat) {
    Follows(f, p, limit) && IsLoop(p, plan) && paid <= limit < W.LIMB
  }

  /** At a byte of the code, with the mover running it and the limit paying for what comes next. */
  ghost predicate Before(f: Mover, p: Program, limit: nat, paid: nat, at: nat, byte: Byte) {
    Follows(f, p, limit) && paid <= limit < W.LIMB && at < |p.code| <= MAX_ALLOC && p.code[at] == byte
  }

  lemma LapRests(f: Mover, p: Program, limit: nat, gas: nat, at: nat, stack: seq<Word>)
    requires Before(f, p, limit, gas + 1, at, JUMPDEST_BYTE)
    ensures f(At(at, stack, gas)) == Go(At(at + 1, stack, gas + 1))
  {
    var m := At(at, stack, gas);
    ChargeWithoutWrap(gas, 1, limit);
    IdleMove(p, limit, m, JumpDest, gas + 1);
    assert Looked(m);
  }

  lemma LapPushes(f: Mover, p: Program, limit: nat, m: Machine, w: Word)
    requires Before(f, p, limit, m.gasUsed + p.schedule.base, m.pc, 0x58) && !m.stopped && |m.stack| <= 2
    requires w == NumberWord(m.pc + 1)
    ensures f(m) == Go(Onward(m, m.stack + [w], p.schedule.base))
  {
    PcMove(p, limit, m);
    assert Looked(m);
  }

  lemma LapCounts(f: Mover, p: Program, limit: nat, gas: nat, at: nat, stack: seq<Word>) returns (w: Word)
    requires Before(f, p, limit, gas + p.schedule.base, at, 0x58) && |stack| <= 2
    ensures W.Value(w) == at + 1 == W.ToIndex(w)
    ensures f(At(at, stack, gas)) == Go(At(at + 1, stack + [w], gas + p.schedule.base))
  {
    var m := At(at, stack, gas);
    w := NumberWord(m.pc + 1);
    LapPushes(f, p, limit, m, w);
    NumberValue(at + 1, w);
  }

  lemma LapSubtracts(f: Mover, p: Program, limit: nat, gas: nat, at: nat, b: Word, a: Word, d: nat) returns (w: Word)
    requires Before(f, p, limit, gas + p.schedule.base, at, 0x03) && W.Value(a) == W.Value(b) + d && d < W.LIMB
    ensures W.ToIndex(w) == d
    ensures f(At(at, [b, a], gas)) == Go(At(at + 1, [w], gas + p.schedule.base))
  {
    var m := At(at, [b, a], gas);
    w := W.Sub(a, b);
    SubMove(p, limit, m, b, a);
    assert Looked(m);
    W.DifferenceIndex(a, b, w, d);
  }

  /** The first operand, if there are two. */
  ghost predicate Prepared(dear: Opcode, stack: seq<Word>, w: Word) {
    if dear == Sha3 then |stack| == 2 && stack[0] == w && W.ToIndex(stack[1]) <= MAX_ALLOC else stack == [w]
  }

  lemma LapWaits(f: Mover, p: Program, limit: nat, gas: nat, at: nat, stack: seq<Word>, t: Tier)
    requires Before(f, p, limit, gas + TierCost(t, p.schedule), at, TierByte(t))
    ensures f(At(at, stack, gas)) == Go(At(at + 1, stack, gas + TierCost(t, p.schedule)))
  {
    var m := At(at, stack, gas);
    ChargeWithoutWrap(gas, TierCost(t, p.schedule), limit);
    IdleMove(p, limit, m, Inert(t), gas + TierCost(t, p.schedule));
    assert Looked(m);
  }

  lemma LapPrepares(f: Mover, p: Program, limit: nat, gas: nat, at: nat, w: Word, dear: Opcode)
    returns (first: seq<Word>)
    requires Before(f, p, limit, gas + p.schedule.base, at, Prelude(dear))
    ensures Prepared(dear, first, w)
    ensures f(At(at, [w], gas)) == Go(At(at + 1, first, gas + p.schedule.base))
  {
    if dear == Sha3 {
      var x := LapCounts(f, p, limit, gas, at, [w]);
      first := [w] + [x];
    } else {
      first := [w];
      LapWaits(f, p, limit, gas, at, [w], Tier.Base);
    }
  }

  lemma LapPays(f: Mover, p: Program, limit: nat, gas: nat, at: nat, dear: Opcode, w: Word, stack: seq<Word>,
                total: nat)
    returns (y: Word)
    requires Before(f, p, limit, gas, at, ByteOf(dear)) && Drivable(dear) && Operands(dear, stack, w)
    requires Charge(gas, GasCost(dear, p.schedule), limit) == Some(total)
    ensures f(At(at, stack, gas)) == Go(At(at + 1, [w, y], total))
  {
    var m := At(at, stack, gas);
    y := DearMove(p, limit, m, dear, w, total);
    assert Looked(m);
  }

  lemma LapPops(f: Mover, p: Program, limit: nat, gas: nat, at: nat, w: Word, y: Word)
    requires Before(f, p, limit, gas + p.schedule.base, at, 0x50)
    ensures f(At(at, [w, y], gas)) == Go(At(at + 1, [w], gas + p.schedule.base))
  {
    LapDrops(f, p, limit, At(at, [w, y], gas), w, y);
  }

  lemma LapDrops(f: Mover, p: Program, limit: nat, m: Machine, w: Word, y: Word)
    requires Before(f, p, limit, m.gasUsed + p.schedule.base, m.pc, 0x50) && !m.stopped && m.stack == [w, y]
    ensures f(m) == Go(Onward(m, [w], p.schedule.base))
  {
    PopMove(p, limit, m, w, y);
    assert Looked(m);
  }

  lemma LapJumps(f: Mover, p: Program, limit: nat, gas: nat, at: nat, w: Word, dest: nat)
    requires Before(f, p, limit, gas + p.schedule.mid, at, 0x56)
    requires W.ToIndex(w) == dest < |p.code| && p.code[dest] == JUMPDEST_BYTE
    ensures f(At(at, [w], gas)) == Go(At(dest, [], gas + p.schedule.mid))
  {
    var m := At(at, [w], gas);
    JumpMove(p, limit, m, w, dest);
    assert Looked(m);
  }

  // ----- one lap

  /** JUMPDEST and PC push the number of the byte after them. */
  lemma LapMarks(f: Mover, p: Program, limit: nat, gas: nat, at: nat, stack: seq<Word>) returns (n: nat, w: Word)
    requires Before(f, p, limit, gas + 1 + p.schedule.base, at, JUMPDEST_BYTE)
    requires at + 1 < |p.code| && p.code[at + 1] == 0x58 && |stack| <= 2
    ensures W.Value(w) == at + 2
    ensures Reaches(f, At(at, stack, gas), n, At(at + 2, stack + [w], gas + 1 + p.schedule.base))
  {
    LapRests(f, p, limit, gas, at, stack);
    w := LapCounts(f, p, limit, gas + 1, at + 1, stack);
    n := ReachesInTwo(f, At(at, stack, gas), At(at + 1, stack, gas + 1),
                      At(at + 2, stack + [w], gas + 1 + p.schedule.base));
  }

  lemma LapAims(f: Mover, p: Program, limit: nat, gas: nat, at: nat, b: Word, a: Word, d: nat) returns (n: nat, w: Word)
    requires Before(f, p, limit, gas + p.schedule.base, at, 0x03) && W.Value(a) == W.Value(b) + d && d < W.LIMB
    ensures W.ToIndex(w) == d
    ensures Reaches(f, At(at, [b] + [a], gas), n, At(at + 1, [w], gas + p.schedule.base))
  {
    assert [b] + [a] == [b, a];
    w := LapSubtracts(f, p, limit, gas, at, b, a, d);
    n := ReachesInOne(f, At(at, [b, a], gas), At(at + 1, [w], gas + p.schedule.base));
  }

  /** The first five moves leave the start of the loop on the stack. */
  lemma LapStarts(f: Mover, p: Program, limit: nat, gas: nat, start: nat, fill: nat) returns (n: nat, w: Word)
    requires Follows(f, p, limit) && LoopFront(p.code, start, fill) && start == 2 && |p.code| <= MAX_ALLOC
    requires gas + 2 + 3 * p.schedule.base <= limit < W.LIMB
    ensures W.ToIndex(w) == start
    ensures Reaches(f, At(start, [], gas), n, At(start + 5, [w], gas + 2 + 3 * p.schedule.base))
  {
    var base := p.schedule.base;
    var i, b := LapMarks(f, p, limit, gas, start, []);
    assert [] + [b] == [b];
    var j, a := LapMarks(f, p, limit, gas + 1 + base, start + 2, [b]);
    var k, two := LapAims(f, p, limit, gas + 2 + 2 * base, start + 4, b, a, start);
    w := two;
    n := Chain(f, At(start, [], gas), i, At(start + 2, [b], gas + 1 + base), j,
               At(start + 4, [b] + [a], gas + 2 + 2 * base), k, At(start + 5, [w], gas + 2 + 3 * base));
  }

  lemma LapFills(f: Mover, p: Program, limit: nat, gas: nat, start: nat, fill: nat, w: Word)
    requires Follows(f, p, limit) && LoopFront(p.code, start, fill) && |p.code| <= MAX_ALLOC
    requires gas + fill <= limit < W.LIMB
    ensures Reaches(f, At(start + 5, [w], gas), fill, At(start + 5 + fill, [w], gas + fill))
  {
    var m := At(start + 5, [w], gas);
    forall i: nat | i < fill ensures f(Strolled(m, i)) == Go(Strolled(m, i + 1)) {
      LapRests(f, p, limit, gas + i, start + 5 + i, [w]);
    }
    StrollAlong(f, m, fill);
  }

  lemma LapFront(f: Mover, p: Program, limit: nat, gas: nat, start: nat, fill: nat) returns (n: nat, w: Word)
    requires Follows(f, p, limit) && LoopFront(p.code, start, fill) && start == 2 && |p.code| <= MAX_ALLOC
    requires gas + 2 + 3 * p.schedule.base + fill <= limit < W.LIMB
    ensures W.ToIndex(w) == start
    ensures Reaches(f, At(start, [], gas), n, At(start + 5 + fill, [w], gas + 2 + 3 * p.schedule.base + fill))
  {
    var begun := gas + 2 + 3 * p.schedule.base;
    var i, two := LapStarts(f, p, limit, gas, start, fill);
    w := two;
    LapFills(f, p, limit, begun, start, fill, w);
    n := i + fill;
    ReachesOn(f, At(start, [], gas), i, At(start + 5, [w], begun), fill, At(start + 5 + fill, [w], begun + fill));
  }

  lemma LapLoads(f: Mover, p: Program, limit: nat, gas: nat, filled: nat, dear: Opcode, w: Word)
    returns (n: nat, stack: seq<Word>)
    requires Follows(f, p, limit) && LoopBack(p.code, filled, dear) && |p.code| <= MAX_ALLOC
    requires gas + 2 * p.schedule.base <= limit < W.LIMB
    ensures Operands(dear, stack, w)
    ensures Reaches(f, At(filled, [w], gas), n, At(filled + 2, stack, gas + 2 * p.schedule.base))
  {
    var base := p.schedule.base;
    var first := LapPrepares(f, p, limit, gas, filled, w, dear);
    var x := LapCounts(f, p, limit, gas + base, filled + 1, first);
    stack := first + [x];
    n := ReachesInTwo(f, At(filled, [w], gas), At(filled + 1, first, gas + base),
                      At(filled + 2, stack, gas + 2 * base));
  }

  /** POP and JUMP bring the machine home. */
  lemma LapEnds(f: Mover, p: Program, plan: Plan, limit: nat, gas: nat, w: Word, y: Word) returns (n: nat)
    requires On(f, p, plan, limit, gas + TailPrice(p.schedule)) && W.ToIndex(w) == plan.start
    ensures Reaches(f, At(Filled(plan) + 3, [w, y], gas), n, Home(plan, gas + TailPrice(p.schedule)))
  {
    var base, filled := p.schedule.base, Filled(plan);
    LapPops(f, p, limit, gas, filled + 3, w, y);
    LapJumps(f, p, limit, gas + base, filled + 4, w, plan.start);
    n := ReachesInTwo(f, At(filled + 3, [w, y], gas), At(filled + 4, [w], gas + base),
                      Home(plan, gas + TailPrice(p.schedule)));
  }

  /** From home to the dear instruction. */
  lemma LapHead(f: Mover, p: Program, plan: Plan, limit: nat, gas: nat) returns (n: nat, w: Word, stack: seq<Word>)
    requires On(f, p, plan, limit, gas + HeadPrice(p.schedule, plan.fill))
    ensures W.ToIndex(w) == plan.start && Operands(plan.dear, stack, w)
    ensures Reaches(f, Home(plan, gas), n, At(Filled(plan) + 2, stack, gas + HeadPrice(p.schedule, plan.fill)))
  {
    var filled, ready := Filled(plan), gas + 2 + 3 * p.schedule.base + plan.fill;
    var i, two := LapFront(f, p, limit, gas, plan.start, plan.fill);
    w := two;
    var k, loaded := LapLoads(f, p, limit, ready, filled, plan.dear, w);
    stack := loaded;
    n := i + k;
    ReachesOn(f, Home(plan, gas), i, At(filled, [w], ready), k,
              At(filled + 2, stack, gas + HeadPrice(p.schedule, plan.fill)));
  }

  /** One lap: home again, with the dear instruction charged to `total` on the way. */
  lemma Lap(f: Mover, p: Program, plan: Plan, limit: nat, gas: nat, total: nat)
    returns (n: nat, k: nat, before: Machine, after: Machine)
    requires On(f, p, plan, limit, gas + HeadPrice(p.schedule, plan.fill))
    requires Charge(gas + HeadPrice(p.schedule, plan.fill), GasCost(plan.dear, p.schedule), limit) == Some(total)
    requires total + TailPrice(p.schedule) <= limit
    ensures n > 0 && Reaches(f, Home(plan, gas), n, Home(plan, total + TailPrice(p.schedule)))
    ensures Reaches(f, Home(plan, gas), k, before) && f(before) == Go(after)
    ensures before.gasUsed == gas + HeadPrice(p.schedule, plan.fill) && after.gasUsed == total
  {
    var filled, paid := Filled(plan), gas + HeadPrice(p.schedule, plan.fill);
    var i, w, stack := LapHead(f, p, plan, limit, gas);
    var y := LapPays(f, p, limit, paid, filled + 2, plan.dear, w, stack, total);
    var j := LapEnds(f, p, plan, limit, total, w, y);
    k, before, after := i, At(filled + 2, stack, paid), At(filled + 3, [w, y], total);
    n := Through(f, Home(plan, gas), i, before, after, j, Home(plan, total + TailPrice(p.schedule)));
  }

  // ----- lap after lap

  /** The laps fill the 64 bits exactly, and the limit reaches the point where the last one wraps. */
  ghost predicate Turns(f: Mover, p: Program, plan: Plan, limit: nat, laps: nat) {
    && Follows(f, p, limit) && IsLoop(p, plan) && LapPrice(p.schedule, plan.dear, plan.fill) * laps == W.LIMB
    && W.LIMB - GasCost(plan.dear, p.schedule) <= limit < W.LIMB
  }

  lemma Products(j: nat, lap: nat, laps: nat)
    requires j < laps && lap * laps == W.LIMB
    ensures (j + 1) * lap == j * lap + lap <= W.LIMB
    ensures if j + 1 == laps then (j + 1) * lap == W.LIMB else (j + 1) * lap + lap <= W.LIMB
  {
    assert (laps - (j + 1)) * lap == lap * laps - (j + 1) * lap;
    if j + 1 < laps {
      assert (laps - (j + 2)) * lap >= 0;
      assert (laps - (j + 1)) * lap == (laps - (j + 2)) * lap + lap;
    }
  }

  /** What the dear instruction of a lap is charged to, when the lap started at `from` laps' worth of gas. */
  lemma ChargeOfLap(p: Program, plan: Plan, limit: nat, from: nat, to: nat, lap: nat)
    requires lap == LapPrice(p.schedule, plan.dear, plan.fill) && to == from + lap
    requires W.LIMB - GasCost(plan.dear, p.schedule) <= limit < W.LIMB
    requires to == W.LIMB || to + lap <= W.LIMB
    ensures var s, total := p.schedule, Wrapped(to);
            && from + TailPrice(s) + HeadPrice(s, plan.fill) + GasCost(plan.dear, s) == to
            && from + TailPrice(s) + HeadPrice(s, plan.fill) <= limit && total + TailPrice(s) <= limit
            && Charge(from + TailPrice(s) + HeadPrice(s, plan.fill), GasCost(plan.dear, s), limit) == Some(total)
  {
    if to < W.LIMB {
      ChargeWithoutWrap(to - GasCost(plan.dear, p.schedule), GasCost(plan.dear, p.schedule), limit);
    }
  }

  function Wrapped(to: nat): nat {
    if to == W.LIMB then 0 else to
  }

  /** One lap on: the last one wraps the gas used to where the first one started. */
  lemma LapTurns(f: Mover, p: Program, plan: Plan, limit: nat, from: nat, to: nat, tail: nat)
    returns (n: nat, k: nat, before: Machine, after: Machine)
    requires Follows(f, p, limit) && IsLoop(p, plan) && tail == TailPrice(p.schedule)
    requires W.LIMB - GasCost(plan.dear, p.schedule) <= limit < W.LIMB
    requires to == from + LapPrice(p.schedule, plan.dear, plan.fill)
    requires to == W.LIMB || to + LapPrice(p.schedule, plan.dear, plan.fill) <= W.LIMB
    ensures n > 0 && Reaches(f, Home(plan, from + tail), n, Home(plan, Wrapped(to) + tail))
    ensures Reaches(f, Home(plan, from + tail), k, before) && f(before) == Go(after)
    ensures after.gasUsed == Wrapped(to) && before.gasUsed + GasCost(plan.dear, p.schedule) == to
  {
    ChargeOfLap(p, plan, limit, from, to, LapPrice(p.schedule, plan.dear, plan.fill));
    n, k, before, after := Lap(f, p, plan, limit, from + tail, Wrapped(to));
  }

  lemma {:induction false} LapsTurn(f: Mover, p: Program, plan: Plan, limit: nat, laps: nat, j: nat, gas: nat, lap: nat)
    returns (n: nat)
    requires Turns(f, p, plan, limit, laps) && j < laps && lap == LapPrice(p.schedule, plan.dear, plan.fill)
    requires gas == j * lap
    ensures Reaches(f, Home(plan, TailPrice(p.schedule)), n, Home(plan, gas + TailPrice(p.schedule)))
  {
    if j == 0 {
      n := 0;
    } else {
      var tail, from := TailPrice(p.schedule), (j - 1) * lap;
      Products(j - 1, lap, laps);
      var i := LapsTurn(f, p, plan, limit, laps, j - 1, from, lap);
      var k, _, _, _ := LapTurns(f, p, plan, limit, from, gas, tail);
      ReachesOn(f, Home(plan, tail), i, Home(plan, from + tail), k, Home(plan, gas + tail));
      n := i + k;
    }
  }

  /** The two leading bytes bring the machine to the loop. */
  lemma LoopBegins(f: Mover, p: Program, plan: Plan, limit: nat, laps: nat) returns (n: nat)
    requires Turns(f, p, plan, limit, laps)
    ensures Reaches(f, START, n, Home(plan, TailPrice(p.schedule)))
  {
    var mid, base := p.schedule.mid, p.schedule.base;
    assert LapPrice(p.schedule, plan.dear, plan.fill) <= W.LIMB by {
      Products(0, LapPrice(p.schedule, plan.dear, plan.fill), laps);
    }
    LapWaits(f, p, limit, 0, 0, [], Mid);
    LapWaits(f, p, limit, mid, 1, [], Tier.Base);
    n := ReachesInTwo(f, START, At(1, [], mid), Home(plan, TailPrice(p.schedule)));
  }

  lemma LastLap(f: Mover, p: Program, plan: Plan, limit: nat, laps: nat, home: Machine)
    returns (i: nat, last: Machine, j: nat, k: nat, before: Machine, after: Machine)
    requires Turns(f, p, plan, limit, laps) && home == Home(plan, TailPrice(p.schedule))
    ensures Reaches(f, home, i, last) && j > 0 && Reaches(f, last, j, home)
    ensures Reaches(f, last, k, before) && f(before) == Go(after)
    ensures after.gasUsed == 0 && before.gasUsed == W.LIMB - GasCost(plan.dear, p.schedule)
  {
    var lap, tail := LapPrice(p.schedule, plan.dear, plan.fill), TailPrice(p.schedule);
    var from := (laps - 1) * lap;
    Products(laps - 1, lap, laps);
    last := Home(plan, from + tail);
    i := LapsTurn(f, p, plan, limit, laps, laps - 1, from, lap);
    j, k, before, after := LapTurns(f, p, plan, limit, from, W.LIMB, tail);
  }

  /** The loop never stops, and its last lap lowers gas used to zero. */
  lemma LoopTurns(f: Mover, p: Program, plan: Plan, limit: nat, laps: nat)
    returns (n: nat, before: Machine, after: Machine)
    requires Turns(f, p, plan, limit, laps)
    ensures !Stops(f, START)
    ensures Reaches(f, START, n, before) && f(before) == Go(after)
    ensures after.gasUsed == 0 && before.gasUsed == W.LIMB - GasCost(plan.dear, p.schedule)
  {
    var home := Home(plan, TailPrice(p.schedule));
    var first := LoopBegins(f, p, plan, limit, laps);
    var i, last, j, k, b, a := LastLap(f, p, plan, limit, laps, home);
    before, after := b, a;
    n := Chain(f, START, first, home, i, last, k, before);
    ReachesOn(f, home, i, last, j, home);
    NoStopBeforeCycle(f, START, first, home, i + j);
  }

  // ----- exactly when every program stops, and gas used never goes down

  function Pow2(k: nat): nat {
    if k == 0 then 1 else 2 * Pow2(k - 1)
  }

  lemma {:induction false} Pow2Adds(j: nat, k: nat)
    ensures Pow2(j + k) == Pow2(j) * Pow2(k)
  {
    if j > 0 {
      Pow2Adds(j - 1, k);
    }
  }

  lemma Pow2Is64Bits()
    ensures Pow2(64) == W.LIMB
  {
    assert Pow2(4) == 16;
    Pow2Adds(4, 4);
    Pow2Adds(8, 8);
    Pow2Adds(16, 16);
    Pow2Adds(32, 32);
  }

  /** Some power of two between a number and its double divides 64 bits. */
  lemma {:induction false} FindLap(low: nat, k: nat, laps: nat) returns (lap: nat, total: nat)
    requires 0 < low <= Pow2(k) && Pow2(k) * laps == W.LIMB
    ensures lap * total == W.LIMB && low <= lap < 2 * low
  {
    if Pow2(k) < 2 * low {
      lap, total := Pow2(k), laps;
    } else {
      assert Pow2(k - 1) * (2 * laps) == Pow2(k) * laps;
      lap, total := FindLap(low, k - 1, 2 * laps);
    }
  }

  const HALF: nat := 0x8000_0000_0000_0000

  /** What the loop costs without filling; it must leave the filling a length that a program can have. */
  ghost predicate Roomy(s: Schedule, dear: Opcode) {
    var bare := LapPrice(s, dear, 0);
    bare <= HALF || HALF + 13 <= bare <= W.LIMB
  }

  ghost predicate IsDearest(s: Schedule, dear: Opcode) {
    forall op :: GasCost(op, s) <= GasCost(dear, s)
  }

  lemma DearestDrives(s: Schedule, dear: Opcode)
    requires IsDearest(s, dear)
    ensures Drivable(Drive(dear))
  {
    assert GasCost(JumpDest, s) <= GasCost(dear, s);
  }

  lemma FindFill(bare: nat) returns (fill: nat, laps: nat)
    requires 0 < bare <= HALF || HALF + 13 <= bare <= W.LIMB
    ensures (bare + fill) * laps == W.LIMB && fill + 12 <= MAX_ALLOC
  {
    Pow2Is64Bits();
    var lap, total := FindLap(bare, 64, 1);
    LapFitsHalf(lap, total);
    fill, laps := lap - bare, total;
  }

  lemma LoopOf(s: Schedule, plan: Plan, laps: nat, limit: nat, keccak: seq<Byte> -> Word) returns (p: Program)
    requires Drivable(plan.dear) && plan.start == 2 && LastByte(plan) < MAX_ALLOC
    requires LapPrice(s, plan.dear, plan.fill) * laps == W.LIMB && W.LIMB - GasCost(plan.dear, s) <= limit < W.LIMB
    ensures p == Program(p.code, s, keccak) && |p.code| == LastByte(plan) + 1
    ensures Turns(Moves(p, limit), p, plan, limit, laps)
  {
    p := Loop(s, plan, keccak);
    LoopIsLoop(s, plan, keccak);
    MovesFollow(p, limit);
  }

  /** A plan for every schedule with room for the loop. */
  lemma PlanFor(s: Schedule, dear: Opcode) returns (plan: Plan, laps: nat)
    requires IsDearest(s, dear) && Roomy(s, dear)
    ensures Drivable(plan.dear) && plan.start == 2 && LastByte(plan) < MAX_ALLOC
    ensures GasCost(plan.dear, s) == GasCost(dear, s) && LapPrice(s, plan.dear, plan.fill) * laps == W.LIMB
  {
    DearestDrives(s, dear);
    var fill, total := FindFill(LapPrice(s, dear, 0));
    laps, plan := total, Plan(Drive(dear), 2, fill);
    assert LapPrice(s, plan.dear, fill) == LapPrice(s, dear, 0) + fill;
  }

  lemma LoopFor(s: Schedule, dear: Opcode, limit: nat, keccak: seq<Byte> -> Word)
    returns (p: Program, plan: Plan, laps: nat)
    requires IsDearest(s, dear) && Roomy(s, dear) && W.LIMB - GasCost(dear, s) <= limit < W.LIMB
    ensures p == Program(p.code, s, keccak) && |p.code| <= MAX_ALLOC && GasCost(plan.dear, s) == GasCost(dear, s)
    ensures Turns(Moves(p, limit), p, plan, limit, laps)
  {
    plan, laps := PlanFor(s, dear);
    p := LoopOf(s, plan, laps, limit, keccak);
  }

  lemma LapFitsHalf(lap: nat, laps: nat)
    requires lap * laps == W.LIMB
    ensures lap <= HALF || lap == W.LIMB
  {
    if laps >= 2 {
      assert lap * (laps - 2) >= 0;
      assert lap * laps == 2 * lap + lap * (laps - 2);
    }
  }

  /** Every program that can exist stops. */
  ghost predicate AllStop(s: Schedule, limit: nat, keccak: seq<Byte> -> Word, size: nat) {
    forall code | |code| <= size :: Stops(Moves(Program(code, s, keccak), limit), START)
  }

  lemma NoWrapAllStop(s: Schedule, limit: nat, keccak: seq<Byte> -> Word, size: nat)
    requires forall op :: limit + GasCost(op, s) < W.LIMB
    ensures AllStop(s, limit, keccak, size)
  {
    forall code | |code| <= size ensures Stops(Moves(Program(code, s, keccak), limit), START) {
      var n, o := EndsWithoutWrap(Program(code, s, keccak), limit, START);
    }
  }

  /** For every schedule with room for the loop: every program stops if and only if the dearest price added to the limit
      stays below 64 bits. */
  lemma StoppingExact(s: Schedule, dear: Opcode, limit: nat, keccak: seq<Byte> -> Word)
    requires limit < W.LIMB && IsDearest(s, dear) && Roomy(s, dear)
    ensures AllStop(s, limit, keccak, MAX_ALLOC) <==> limit + GasCost(dear, s) < W.LIMB
  {
    if limit + GasCost(dear, s) < W.LIMB {
      NoWrapAllStop(s, limit, keccak, MAX_ALLOC);
    } else {
      var p, plan, laps := LoopFor(s, dear, limit, keccak);
      var n, before, after := LoopTurns(Moves(p, limit), p, plan, limit, laps);
      assert !Stops(Moves(Program(p.code, s, keccak), limit), START);
    }
  }

  /** Gas used never goes down in a program that can exist. */
  ghost predicate NoneDrops(s: Schedule, limit: nat, keccak: seq<Byte> -> Word, size: nat) {
    forall code | |code| <= size :: GasNeverDrops(Program(code, s, keccak), limit)
  }

  lemma NoWrapNoneDrops(s: Schedule, limit: nat, keccak: seq<Byte> -> Word, size: nat)
    requires forall op :: limit + GasCost(op, s) < W.LIMB
    ensures NoneDrops(s, limit, keccak, size)
  {
    forall code | |code| <= size ensures GasNeverDrops(Program(code, s, keccak), limit) {
      NothingWrapsNothingDrops(Program(code, s, keccak), limit);
    }
  }

  lemma DropSeen(p: Program, limit: nat, n: nat, before: Machine, after: Machine)
    requires Reaches(Moves(p, limit), START, n, before) && MoveOf(p, limit, before) == Go(after)
    requires after.gasUsed < before.gasUsed
    ensures !GasNeverDrops(p, limit)
  {
    assert !Climbs(p, limit, before);
  }

  /** A wrapping charge is accepted and lowers gas used. */
  lemma WrapDropsGas(p: Program, limit: nat, m: Machine, op: Opcode)
    requires Inv(p, limit, m) && m.pc < |p.code| && limit < W.LIMB
    requires m.gasUsed + GasCost(op, p.schedule) >= W.LIMB > GasCost(op, p.schedule)
    ensures Perform(p, limit, m, op).next.gasUsed < m.gasUsed
  {
    var total := m.gasUsed + GasCost(op, p.schedule) - W.LIMB;
    assert Charge(m.gasUsed, GasCost(op, p.schedule), limit) == Some(total);
    PayEffect(p, limit, m, op, Some(total));
  }

  /** A price above half of 64 bits wraps after a row of JUMPDESTs that still is a program. */
  function Spend(dear: Opcode, s: Schedule, keccak: seq<Byte> -> Word): Program
    requires GasCost(dear, s) <= W.LIMB
  {
    Program(seq(W.LIMB - GasCost(dear, s), _ => JUMPDEST_BYTE) + [ByteOf(dear)], s, keccak)
  }

  lemma SpendDrops(p: Program, dear: Opcode, limit: nat)
    requires GasCost(dear, p.schedule) < W.LIMB && p == Spend(dear, p.schedule, p.keccak)
    requires W.LIMB - GasCost(dear, p.schedule) <= limit < W.LIMB
    ensures !GasNeverDrops(p, limit)
  {
    var count := W.LIMB - GasCost(dear, p.schedule);
    var spent := At(count, [], count);
    Stroll(p, limit, START, count);
    assert Strolled(START, count) == spent;
    WrapDropsGas(p, limit, spent, dear);
    assert !Climbs(p, limit, spent);
  }

  /** For the same schedules, and for every dearest price above half of 64 bits: gas used never goes down in any run of
      any program if and only if the dearest price added to the limit stays below 64 bits. */
  lemma GasNeverDropsExact(s: Schedule, dear: Opcode, limit: nat, keccak: seq<Byte> -> Word)
    requires limit < W.LIMB && IsDearest(s, dear) && GasCost(dear, s) < W.LIMB
    requires Roomy(s, dear) || HALF + 2 <= GasCost(dear, s)
    ensures NoneDrops(s, limit, keccak, MAX_ALLOC) <==> limit + GasCost(dear, s) < W.LIMB
  {
    if limit + GasCost(dear, s) < W.LIMB {
      NoWrapNoneDrops(s, limit, keccak, MAX_ALLOC);
    } else if Roomy(s, dear) {
      var p, plan, laps := LoopFor(s, dear, limit, keccak);
      var n, before, after := LoopTurns(Moves(p, limit), p, plan, limit, laps);
      DropSeen(p, limit, n, before, after);
      assert !GasNeverDrops(Program(p.code, s, keccak), limit);
    } else {
      var p := Spend(dear, s, keccak);
      SpendDrops(p, dear, limit);
      assert !GasNeverDrops(Program(p.code, s, keccak), limit);
    }
  }

  // ----- the default prices

  const DEFAULT_SCHEDULE := Schedule(2, 3, 5, 8, 10, 30, 2_100, 20_000, 100, 700, 32_000, 5_000)

  /** A loop of 758 bytes whose laps cost 32,768 each. */
  lemma DefaultLoop(limit: nat, keccak: seq<Byte> -> Word) returns (p: Program, n: nat, before: Machine, after: Machine)
    requires W.LIMB - 32_000 <= limit < W.LIMB
    ensures p == Program(p.code, DEFAULT_SCHEDULE, keccak) && |p.code| == 758
    ensures !Stops(Moves(p, limit), START)
    ensures Reaches(Moves(p, limit), START, n, before) && MoveOf(p, limit, before) == Go(after)
    ensures after.gasUsed < before.gasUsed
  {
    var plan := Plan(Inert(Create), 2, 746);
    assert LapPrice(DEFAULT_SCHEDULE, plan.dear, plan.fill) == 32_768;
    p := LoopOf(DEFAULT_SCHEDULE, plan, 0x2_0000_0000_0000, limit, keccak);
    n, before, after := LoopTurns(Moves(p, limit), p, plan, limit, 0x2_0000_0000_0000);
  }

  /** Under the default prices, and already among programs of up to 758 bytes, every program stops, and gas used never
      goes down, exactly when the limit is more than 32,000 below 64 bits. */
  lemma DefaultScheduleExact(limit: nat, keccak: seq<Byte> -> Word, size: nat)
    requires limit < W.LIMB && 758 <= size
    ensures AllStop(DEFAULT_SCHEDULE, limit, keccak, size) <==> limit + 32_000 < W.LIMB
    ensures NoneDrops(DEFAULT_SCHEDULE, limit, keccak, size) <==> limit + 32_000 < W.LIMB
  {
    if limit + 32_000 < W.LIMB {
      NoWrapAllStop(DEFAULT_SCHEDULE, limit, keccak, size);
      NoWrapNoneDrops(DEFAULT_SCHEDULE, limit, keccak, size);
    } else {
      var p, n, before, after := DefaultLoop(limit, keccak);
      DropSeen(p, limit, n, before, after);
      assert !Stops(Moves(Program(p.code, DEFAULT_SCHEDULE, keccak), limit), START);
      assert !GasNeverDrops(Program(p.code, DEFAULT_SCHEDULE, keccak), limit);
    }
  }
}
