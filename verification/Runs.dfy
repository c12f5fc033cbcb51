/** Runs of a deterministic machine, whatever the machine: where they lead, whether they end, what a cap on its load
    does. */
module Runs {
  import opened Base

  datatype Move<M, O> = Go(next: M) | Halt(outcome: O)

  /** After n moves from m the machine halts with this outcome. */
  ghost predicate Ends<M, O>(f: M -> Move<M, O>, m: M, n: nat, outcome: O) {
    match f(m)
    case Halt(o) => n == 0 && o == outcome
    case Go(next) => n > 0 && Ends(f, next, n - 1, outcome)
  }

  /** n moves lead from m to this state. */
  ghost predicate Reaches<M, O>(f: M -> Move<M, O>, m: M, n: nat, state: M) {
    if n == 0 then m == state else f(m).Go? && Reaches(f, f(m).next, n - 1, state)
  }

  ghost predicate Stops<M, O(!new)>(f: M -> Move<M, O>, m: M) {
    exists n: nat, o :: Ends(f, m, n, o)
  }

  lemma EndsMove<M, O>(f: M -> Move<M, O>, m: M, n: nat, o: O, move: Move<M, O>)
    requires Ends(f, m, n, o) && f(m) == move
    ensures match move case Halt(x) => n == 0 && x == o case Go(next) => n > 0 && Ends(f, next, n - 1, o)
  {}

  lemma {:induction false} EndsOnce<M, O>(f: M -> Move<M, O>, m: M, n: nat, o: O, n': nat, o': O)
    requires Ends(f, m, n, o) && Ends(f, m, n', o')
    ensures n == n' && o == o'
  {
    if n > 0 {
      EndsOnce(f, f(m).next, n - 1, o, n' - 1, o');
    }
  }

  lemma {:induction false} ReachesOn<M, O>(f: M -> Move<M, O>, a: M, j: nat, b: M, k: nat, c: M)
    requires Reaches(f, a, j, b) && Reaches(f, b, k, c)
    ensures Reaches(f, a, j + k, c)
  {
    if j > 0 {
      ReachesOn(f, f(a).next, j - 1, b, k, c);
    }
  }

  lemma ReachesNext<M, O>(f: M -> Move<M, O>, a: M, j: nat, b: M, c: M)
    requires Reaches(f, a, j, b) && f(b) == Go(c)
    ensures Reaches(f, a, j + 1, c)
  {
    assert Reaches(f, c, 0, c);
    assert Reaches(f, b, 1, c);
    ReachesOn(f, a, j, b, 1, c);
  }

  lemma {:induction false} ReachesAlong<M(!new), O>(f: M -> Move<M, O>, at: nat -> M, k: nat)
    requires forall i: nat {:trigger at(i)} :: i < k ==> f(at(i)) == Go(at(i + 1))
    ensures Reaches(f, at(0), k, at(k))
  {
    if k > 0 {
      ReachesAlong(f, at, k - 1);
      assert f(at(k - 1)) == Go(at(k));
      ReachesNext(f, at(0), k - 1, at(k - 1), at(k));
    }
  }

  lemma ReachesInOne<M, O>(f: M -> Move<M, O>, a: M, b: M) returns (n: nat)
    requires f(a) == Go(b)
    ensures Reaches(f, a, n, b)
  {
    assert Reaches(f, a, 0, a);
    ReachesNext(f, a, 0, a, b);
    n := 1;
  }

  lemma ReachesInTwo<M, O>(f: M -> Move<M, O>, a: M, b: M, c: M) returns (n: nat)
    requires f(a) == Go(b) && f(b) == Go(c)
    ensures Reaches(f, a, n, c)
  {
    assert Reaches(f, a, 0, a);
    ReachesNext(f, a, 0, a, b);
    ReachesNext(f, a, 1, b, c);
    n := 2;
  }

  lemma Chain<M, O>(f: M -> Move<M, O>, a: M, i: nat, b: M, j: nat, c: M, k: nat, d: M) returns (n: nat)
    requires Reaches(f, a, i, b) && Reaches(f, b, j, c) && Reaches(f, c, k, d)
    ensures Reaches(f, a, n, d)
  {
    ReachesOn(f, a, i, b, j, c);
    ReachesOn(f, a, i + j, c, k, d);
    n := i + j + k;
  }

  lemma Through<M, O>(f: M -> Move<M, O>, a: M, i: nat, b: M, c: M, k: nat, d: M) returns (n: nat)
    requires Reaches(f, a, i, b) && f(b) == Go(c) && Reaches(f, c, k, d)
    ensures n > 0 && Reaches(f, a, n, d)
  {
    ReachesNext(f, a, i, b, c);
    ReachesOn(f, a, i + 1, c, k, d);
    n := i + 1 + k;
  }

  lemma {:induction false} EndsFrom<M, O>(f: M -> Move<M, O>, a: M, k: nat, b: M, n: nat, o: O)
    requires Reaches(f, a, k, b) && Ends(f, a, n, o)
    ensures k <= n && Ends(f, b, n - k, o)
  {
    if k > 0 {
      EndsFrom(f, f(a).next, k - 1, b, n - 1, o);
    }
  }

  lemma {:induction false} EndsAt<M, O>(f: M -> Move<M, O>, m: M, n: nat, o: O) returns (last: M)
    requires Ends(f, m, n, o)
    ensures Reaches(f, m, n, last) && f(last) == Halt(o)
  {
    last := m;
    if n > 0 {
      last := EndsAt(f, f(m).next, n - 1, o);
    }
  }

  /** A machine that comes back to a state never halts from it. */
  lemma {:induction false} CycleNeverEnds<M, O>(f: M -> Move<M, O>, m: M, k: nat, n: nat, o: O)
    requires k > 0 && Reaches(f, m, k, m)
    ensures !Ends(f, m, n, o)
    decreases n
  {
    if Ends(f, m, n, o) {
      EndsFrom(f, m, k, m, n, o);
      CycleNeverEnds(f, m, k, n - k, o);
    }
  }

  lemma NoStopBeforeCycle<M, O(!new)>(f: M -> Move<M, O>, m: M, j: nat, a: M, k: nat)
    requires Reaches(f, m, j, a) && k > 0 && Reaches(f, a, k, a)
    ensures !Stops(f, m)
  {
    if Stops(f, m) {
      var n: nat, o :| Ends(f, m, n, o);
      EndsFrom(f, m, j, a, n, o);
      CycleNeverEnds(f, a, k, n - j, o);
    }
  }

  lemma {:induction false} ReachesKeeps<M(!new), O>(f: M -> Move<M, O>, inv: M -> bool, m: M, n: nat, state: M)
    requires forall x :: inv(x) && f(x).Go? ==> inv(f(x).next)
    requires inv(m) && Reaches(f, m, n, state)
    ensures inv(state)
  {
    if n > 0 {
      ReachesKeeps(f, inv, f(m).next, n - 1, state);
    }
  }

  datatype Rank = Rank(first: nat, second: nat, third: nat)

  predicate Below(a: Rank, b: Rank) {
    || a.first < b.first
    || (a.first == b.first && (a.second < b.second || (a.second == b.second && a.third < b.third)))
  }

  /** A machine whose rank drops with every move halts. */
  lemma {:induction false} RankedEnds<M(!new), O>(f: M -> Move<M, O>, inv: M -> bool, rank: M -> Rank, m: M)
    returns (n: nat, o: O)
    requires forall x :: inv(x) && f(x).Go? ==> inv(f(x).next) && Below(rank(f(x).next), rank(x))
    requires inv(m)
    ensures Ends(f, m, n, o)
    decreases rank(m).first, rank(m).second, rank(m).third
  {
    if f(m).Go? {
      n, o := RankedEnds(f, inv, rank, f(m).next);
      n := n + 1;
    } else {
      n, o := 0, f(m).outcome;
    }
  }

  // ----- caps

  /** How loaded a state or an outcome is, and which outcomes mean that a cap stopped the machine. */
  datatype Gauge<!M, !O> = Gauge(load: M -> nat, last: O -> nat, ranOut: O -> bool)

  function Max(a: nat, b: nat): nat {
    if a < b then b else a
  }

  /** The highest load on the way, over at most n moves. */
  ghost function Peak<M, O>(f: M -> Move<M, O>, g: Gauge<M, O>, m: M, n: nat): nat {
    match f(m)
    case Halt(o) => Max(g.load(m), g.last(o))
    case Go(next) => if n == 0 then g.load(m) else Max(g.load(m), Peak(f, g, next, n - 1))
  }

  ghost predicate HaltsFull<M, O>(b: Move<M, O>, g: Gauge<M, O>) {
    b.Halt? && g.ranOut(b.outcome)
  }

  /** Move b does what move a does, unless a would go over the cap; then b is stopped by it. */
  ghost predicate CapsMove<M, O>(a: Move<M, O>, b: Move<M, O>, g: Gauge<M, O>, cap: nat) {
    match a
    case Go(next) => if g.load(next) <= cap then b == a else HaltsFull(b, g)
    case Halt(o) => g.ranOut(o) || if g.last(o) <= cap then b == a else HaltsFull(b, g)
  }

  /** Machine f' is machine f under a cap, as far as inv holds. */
  ghost predicate Caps<M(!new), O>(f: M -> Move<M, O>, f': M -> Move<M, O>, g: Gauge<M, O>, inv: M -> bool, cap: nat) {
    forall x :: inv(x) && g.load(x) <= cap ==> CapsMove(f(x), f'(x), g, cap) && (f(x).Go? ==> inv(f(x).next))
  }

  /** A run that no cap stopped fixes the run under any other cap: the same if its peak stays below, else stopped. */
  lemma {:induction false} PeakDecides<M(!new), O>(f: M -> Move<M, O>, f': M -> Move<M, O>, g: Gauge<M, O>,
                                                    inv: M -> bool, cap: nat, m: M, n: nat, o: O)
    returns (k: nat, o': O)
    requires Caps(f, f', g, inv, cap) && inv(m) && g.load(m) <= cap
    requires Ends(f, m, n, o) && !g.ranOut(o)
    ensures k <= n && Ends(f', m, k, o')
    ensures if Peak(f, g, m, n) <= cap then k == n && o' == o else g.ranOut(o')
  {
    assert CapsMove(f(m), f'(m), g, cap);
    if n == 0 {
      assert f(m) == Halt(o);
      assert Peak(f, g, m, 0) == Max(g.load(m), g.last(o));
      k, o' := 0, f'(m).outcome;
    } else {
      var next := f(m).next;
      assert Peak(f, g, m, n) == Max(g.load(m), Peak(f, g, next, n - 1));
      if g.load(next) > cap {
        PeakIsAbove(f, g, next, n - 1);
        k, o' := 0, f'(m).outcome;
      } else {
        var j, x := PeakDecides(f, f', g, inv, cap, next, n - 1, o);
        k, o' := j + 1, x;
      }
    }
  }

  lemma PeakIsAbove<M, O>(f: M -> Move<M, O>, g: Gauge<M, O>, m: M, n: nat)
    ensures g.load(m) <= Peak(f, g, m, n)
  {}

  /** Loads that stay below a bound move by move have their peak below it. */
  lemma {:induction false} PeakBelow<M(!new), O>(f: M -> Move<M, O>, g: Gauge<M, O>, inv: M -> bool, cap: nat,
                                                 m: M, n: nat)
    requires forall x :: inv(x) && f(x).Go? ==> inv(f(x).next)
    requires forall x :: inv(x) ==> g.load(x) <= cap && (f(x).Halt? ==> g.last(f(x).outcome) <= cap)
    requires inv(m)
    ensures Peak(f, g, m, n) <= cap
  {
    if n > 0 && f(m).Go? {
      PeakBelow(f, g, inv, cap, f(m).next, n - 1);
    }
  }

  /** Loads that never fall have their peak at the end. */
  lemma {:induction false} PeakIsLast<M(!new), O>(f: M -> Move<M, O>, g: Gauge<M, O>, inv: M -> bool,
                                                  m: M, n: nat, o: O)
    requires forall x :: inv(x) && f(x).Go? ==> inv(f(x).next) && g.load(x) <= g.load(f(x).next)
    requires forall x :: inv(x) && f(x).Halt? ==> g.load(x) <= g.last(f(x).outcome)
    requires inv(m) && Ends(f, m, n, o)
    ensures g.load(m) <= Peak(f, g, m, n) == g.last(o)
  {
    if n > 0 {
      PeakIsLast(f, g, inv, f(m).next, n - 1, o);
    }
  }
}
