/** Whole runs of the bytecode machine: bounds, the gas limit, and which limits make every program stop. */
module VmRuns {
  import opened Base
  import opened Runs
  import opened Vm
  import W = Words

  // ----- bounds and gas along a run

  lemma MoveKeeps(p: Program, limit: nat, m: Machine)
    requires Inv(p, limit, m) && MoveOf(p, limit, m).Go?
    ensures Inv(p, limit, MoveOf(p, limit, m).next)
  {
    StepKeeps(p, limit, m);
  }

  /** Every state of every run from the start is in bounds, for every code, limit and schedule. */
  lemma ReachedIsInBounds(p: Program, limit: nat, n: nat, m: Machine)
    requires Reaches(Moves(p, limit), START, n, m)
    ensures Inv(p, limit, m)
  {
    forall x | Inv(p, limit, x) && Moves(p, limit)(x).Go? ensures Inv(p, limit, Moves(p, limit)(x).next) {
      MoveKeeps(p, limit, x);
    }
    ReachesKeeps(Moves(p, limit), x => Inv(p, limit, x), START, n, m);
  }

  lemma HaltFacts(p: Program, limit: nat, m: Machine, o: Outcome)
    requires Inv(p, limit, m) && MoveOf(p, limit, m) == Halt(o)
    ensures Inv(p, limit, o.next) && (o.error == None ==> o.next.stopped || o.next.pc == |p.code|)
  {
    if Running(p, m) {
      StepKeeps(p, limit, m);
    }
  }

  /** A run that ends does so in bounds and, without an error, on a stop or at the end of the code. */
  lemma EndsInBounds(p: Program, limit: nat, n: nat, o: Outcome)
    requires Ends(Moves(p, limit), START, n, o)
    ensures Inv(p, limit, o.next) && (o.error == None ==> o.next.stopped || o.next.pc == |p.code|)
  {
    var last := EndsAt(Moves(p, limit), START, n, o);
    ReachedIsInBounds(p, limit, n, last);
    HaltFacts(p, limit, last, o);
  }

  // ----- the gas limit

  /** Gas used as the load of a run, and running out of gas as being stopped by the cap. */
  ghost function GasGauge(): Gauge<Machine, Outcome> {
    Gauge((m: Machine) => m.gasUsed, (o: Outcome) => o.next.gasUsed, (o: Outcome) => RanOut(o))
  }

  /** The most gas used at any point of a run of n moves. */
  ghost function PeakGas(p: Program, limit: nat, m: Machine, n: nat): nat {
    Peak(Moves(p, limit), GasGauge(), m, n)
  }

  lemma MoveUnderTwoLimits(p: Program, l: nat, l': nat, m: Machine)
    requires GAS_BYTE !in p.code && |m.stack| <= MAX_STACK && m.gasUsed <= l'
    ensures CapsMove(MoveOf(p, l, m), MoveOf(p, l', m), GasGauge(), l')
  {
    if Running(p, m) && !RanOut(Step(p, l, m)) {
      StepUnderTwoLimits(p, l, l', m);
    }
  }

  lemma LimitsCap(p: Program, l: nat, l': nat)
    requires GAS_BYTE !in p.code
    ensures Caps(Moves(p, l), Moves(p, l'), GasGauge(), m => Inv(p, l, m), l')
  {
    forall x | Inv(p, l, x) && x.gasUsed <= l'
      ensures CapsMove(Moves(p, l)(x), Moves(p, l')(x), GasGauge(), l')
      ensures Moves(p, l)(x).Go? ==> Inv(p, l, Moves(p, l)(x).next)
    {
      MoveUnderTwoLimits(p, l, l', x);
      if MoveOf(p, l, x).Go? {
        MoveKeeps(p, l, x);
      }
    }
  }

  /** For code without a GAS byte, a run that ends without running out of gas fixes the run under every limit, for
      every schedule: a limit of at least the run's peak gas gives the same outcome in as many moves, any other limit
      runs out of gas. */
  lemma GasLimitExact(p: Program, l: nat, l': nat, m: Machine, n: nat, o: Outcome)
    returns (k: nat, o': Outcome)
    requires GAS_BYTE !in p.code && Inv(p, l, m) && m.gasUsed <= l'
    requires Ends(Moves(p, l), m, n, o) && !RanOut(o)
    ensures k <= n && Ends(Moves(p, l'), m, k, o')
    ensures if PeakGas(p, l, m, n) <= l' then k == n && o' == o else RanOut(o')
  {
    LimitsCap(p, l, l');
    k, o' := PeakDecides(Moves(p, l), Moves(p, l'), GasGauge(), m => Inv(p, l, m), l', m, n, o);
  }

  lemma PeakIsWithin(p: Program, limit: nat, m: Machine, n: nat)
    requires Inv(p, limit, m)
    ensures PeakGas(p, limit, m, n) <= limit
  {
    var f, inv := Moves(p, limit), (m: Machine) => Inv(p, limit, m);
    forall x | inv(x) && f(x).Go? ensures inv(f(x).next) {
      MoveKeeps(p, limit, x);
    }
    forall x | inv(x) ensures GasGauge().load(x) <= limit && (f(x).Halt? ==> GasGauge().last(f(x).outcome) <= limit) {
      if f(x).Halt? {
        HaltFacts(p, limit, x, f(x).outcome);
      }
    }
    PeakBelow(f, GasGauge(), inv, limit, m, n);
  }

  /** More gas never changes a run that had enough. */
  lemma MoreGasChangesNothing(p: Program, l: nat, l': nat, n: nat, o: Outcome)
    requires GAS_BYTE !in p.code && l <= l'
    requires Ends(Moves(p, l), START, n, o) && !RanOut(o)
    ensures Ends(Moves(p, l'), START, n, o)
  {
    PeakIsWithin(p, l, START, n);
    var k, o' := GasLimitExact(p, l, l', START, n, o);
  }

  // ----- gas used never goes down exactly when no charge can wrap

  ghost predicate Climbs(p: Program, limit: nat, m: Machine) {
    Running(p, m) ==> m.gasUsed <= Step(p, limit, m).next.gasUsed
  }

  ghost predicate GasNeverDrops(p: Program, limit: nat) {
    forall n, m | Reaches(Moves(p, limit), START, n, m) :: Climbs(p, limit, m)
  }

  lemma NothingWrapsNothingDrops(p: Program, limit: nat)
    requires NoWrap(p, limit)
    ensures GasNeverDrops(p, limit)
  {
    forall n, m | Reaches(Moves(p, limit), START, n, m)
      ensures Climbs(p, limit, m)
    {
      ReachedIsInBounds(p, limit, n, m);
      if Running(p, m) {
        StepClimbs(p, limit, m);
      }
    }
  }

  lemma MoveClimbs(p: Program, limit: nat, m: Machine)
    requires NoWrap(p, limit) && Inv(p, limit, m)
    ensures match MoveOf(p, limit, m)
            case Go(next) => m.gasUsed <= next.gasUsed
            case Halt(o) => m.gasUsed <= o.next.gasUsed
  {
    if Running(p, m) {
      StepClimbs(p, limit, m);
    }
  }

  /** Without wrapping charges the peak of a run is the gas it used in the end. */
  lemma PeakIsUsed(p: Program, limit: nat, m: Machine, n: nat, o: Outcome)
    requires NoWrap(p, limit) && Inv(p, limit, m) && Ends(Moves(p, limit), m, n, o)
    ensures PeakGas(p, limit, m, n) == o.next.gasUsed
  {
    var f, inv := Moves(p, limit), (m: Machine) => Inv(p, limit, m);
    forall x | inv(x) && f(x).Go? ensures inv(f(x).next) && GasGauge().load(x) <= GasGauge().load(f(x).next) {
      MoveKeeps(p, limit, x);
      MoveClimbs(p, limit, x);
    }
    forall x | inv(x) && f(x).Halt? ensures GasGauge().load(x) <= GasGauge().last(f(x).outcome) {
      MoveClimbs(p, limit, x);
    }
    PeakIsLast(f, GasGauge(), inv, m, n, o);
  }

  // ----- which limits make every program stop

  lemma MoveDescends(p: Program, limit: nat, m: Machine)
    requires NoWrap(p, limit) && Inv(p, limit, m) && MoveOf(p, limit, m).Go?
    ensures Descends(p, limit, m, MoveOf(p, limit, m).next)
  {
    StepDescends(p, limit, m);
  }

  /** Where no charge can wrap, every program stops. */
  lemma EndsWithoutWrap(p: Program, limit: nat, m: Machine) returns (n: nat, o: Outcome)
    requires NoWrap(p, limit) && Inv(p, limit, m)
    ensures Ends(Moves(p, limit), m, n, o)
  {
    var f, inv, rank := Moves(p, limit), (m: Machine) => Inv(p, limit, m), (m: Machine) => RankOf(p, limit, m);
    forall x | inv(x) && f(x).Go? ensures inv(f(x).next) && Below(rank(f(x).next), rank(x)) {
      MoveKeeps(p, limit, x);
      MoveDescends(p, limit, x);
    }
    n, o := RankedEnds(f, inv, rank, m);
  }
}
