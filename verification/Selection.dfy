/** Block selection: the greedy pass over pooled transactions in priority order. */
module Selection {
  import opened Base

  type Pos = n: nat | n > 0 witness 1

  datatype Tx = Tx(from: Address, to: Address, amount: nat, fee: nat, nonce: nat, signature: seq<Byte>, timestamp: nat)

  datatype Pooled = Pooled(tx: Tx, addedAt: nat, hash: Hash, size: Pos)

  /** Fee per byte in millionths, in 64 bits. */
  function PriorityKey(p: Pooled): nat {
    Min(p.tx.fee * 1_000_000 / p.size, U64_MAX)
  }

  lemma FloorBounds(n: nat, d: Pos)
    ensures (n / d) * d <= n < (n / d + 1) * d
  {}

  lemma FloorReaches(n: nat, d: Pos, cap: nat)
    ensures n / d >= cap <==> n >= cap * d
  {
    FloorBounds(n, d);
    if n / d >= cap {
      MulLe(cap, n / d, d);
    } else {
      MulLe(n / d + 1, cap, d);
    }
  }

  lemma MulLe(a: nat, b: nat, c: nat)
    requires a <= b
    ensures a * c <= b * c
  {}

  /** The fee per byte does not fit the 64-bit key. */
  predicate Capped(p: Pooled) {
    p.tx.fee * 1_000_000 >= U64_MAX * p.size
  }

  /** The key is the fee per byte in millionths, rounded down, and the largest 64-bit number when that does not fit. */
  lemma KeyBounds(p: Pooled)
    ensures PriorityKey(p) == U64_MAX <==> Capped(p)
    ensures PriorityKey(p) <= U64_MAX && PriorityKey(p) * p.size <= p.tx.fee * 1_000_000
    ensures !Capped(p) ==> p.tx.fee * 1_000_000 < (PriorityKey(p) + 1) * p.size
  {
    var n := p.tx.fee * 1_000_000;
    FloorBounds(n, p.size);
    FloorReaches(n, p.size, U64_MAX);
    MulLe(PriorityKey(p), n / p.size, p.size);
  }

  /** On fees and sizes alone: q does not pay a full millionth per byte more than p. */
  predicate PaysNoLess(p: Pooled, q: Pooled) {
    if Capped(q) then Capped(p)
    else q.tx.fee * 1_000_000 * p.size < p.tx.fee * 1_000_000 * q.size + p.size * q.size
  }

  lemma CrossMultiply(fp: nat, fq: nat, sp: nat, sq: nat, kp: nat, kq: nat)
    requires kq <= kp && kp * sp <= fp && fq < (kq + 1) * sq && sp > 0
    ensures fq * sp < fp * sq + sp * sq
  {
    MulLe(kq + 1, kp + 1, sq);
    assert fq < (kp + 1) * sq;
    assert fq * sp < (kp + 1) * sq * sp;
    assert (kp + 1) * sq * sp == kp * sp * sq + sp * sq;
    MulLe(kp * sp, fp, sq);
  }

  /** What comes no later by key pays no less by fee and size. */
  lemma KeyOrder(p: Pooled, q: Pooled)
    requires PriorityKey(q) <= PriorityKey(p)
    ensures PaysNoLess(p, q)
  {
    KeyBounds(p);
    KeyBounds(q);
    if !Capped(q) {
      CrossMultiply(p.tx.fee * 1_000_000, q.tx.fee * 1_000_000, p.size, q.size, PriorityKey(p), PriorityKey(q));
    }
  }

  datatype Limits = Limits(maxCount: nat, maxSize: nat, maxNonceGap: nat)

  // ----- what a partial selection says about the next candidate

  /** Positions into the priority order. */
  ghost predicate Positions(order: seq<Pooled>, chosen: seq<nat>) {
    forall q :: 0 <= q < |chosen| ==> chosen[q] < |order|
  }

  function SizeOf(order: seq<Pooled>, chosen: seq<nat>): nat
    requires Positions(order, chosen)
  {
    if chosen == [] then 0 else SizeOf(order, chosen[..|chosen| - 1]) + order[chosen[|chosen| - 1]].size
  }

  /** One past the nonce last chosen for the sender; zero before that. */
  function NextNonce(order: seq<Pooled>, chosen: seq<nat>, sender: Address): nat
    requires Positions(order, chosen)
  {
    if chosen == [] then 0
    else
      var last := order[chosen[|chosen| - 1]].tx;
      if last.from == sender then last.nonce + 1 else NextNonce(order, chosen[..|chosen| - 1], sender)
  }

  predicate Full(l: Limits, order: seq<Pooled>, chosen: seq<nat>)
    requires Positions(order, chosen)
  {
    |chosen| >= l.maxCount || SizeOf(order, chosen) >= l.maxSize
  }

  /** A candidate fits when there is room and its nonce is neither passed nor too far ahead. */
  predicate Fits(l: Limits, order: seq<Pooled>, chosen: seq<nat>, p: Pooled)
    requires Positions(order, chosen)
  {
    var next := NextNonce(order, chosen, p.tx.from);
    next <= p.tx.nonce <= next + l.maxNonceGap && SizeOf(order, chosen) + p.size <= l.maxSize
  }

  predicate Takes(l: Limits, order: seq<Pooled>, chosen: seq<nat>, i: nat)
    requires Positions(order, chosen) && i < |order|
  {
    !Full(l, order, chosen) && Fits(l, order, chosen, order[i])
  }

  /** The positions taken from the first n candidates, in order. */
  function Chosen(l: Limits, order: seq<Pooled>, n: nat): (chosen: seq<nat>)
    requires n <= |order|
    ensures Positions(order, chosen)
    ensures forall q :: 0 <= q < |chosen| ==> chosen[q] < n
  {
    if n == 0 then []
    else
      var before := Chosen(l, order, n - 1);
      if Takes(l, order, before, n - 1) then before + [n - 1] else before
  }

  lemma ChosenNext(l: Limits, order: seq<Pooled>, n: nat)
    requires n < |order|
    ensures Chosen(l, order, n + 1) == Next(l, order, Chosen(l, order, n), n)
  {}

  // ----- what the outcome satisfies

  lemma {:induction false} ChosenGrows(l: Limits, order: seq<Pooled>, i: nat, n: nat)
    requires i <= n <= |order|
    ensures Chosen(l, order, i) <= Chosen(l, order, n)
    ensures forall q :: |Chosen(l, order, i)| <= q < |Chosen(l, order, n)| ==> i <= Chosen(l, order, n)[q]
    decreases n - i
  {
    if i < n {
      ChosenGrows(l, order, i, n - 1);
    }
  }

  /** Candidate i is taken exactly when, after the choices made before it, another one was allowed, the limit on size
      was not reached and would not be passed, and its nonce was due or at most the gap ahead. */
  ghost predicate Explained(l: Limits, order: seq<Pooled>, i: nat)
    requires i < |order|
  {
    var before, all, tx := Chosen(l, order, i), Chosen(l, order, |order|), order[i].tx;
    var size, due := SizeOf(order, before), NextNonce(order, before, tx.from);
    && before <= all
    && (i in all <==> |before| < l.maxCount && size < l.maxSize && size + order[i].size <= l.maxSize
                      && due <= tx.nonce <= due + l.maxNonceGap)
  }

  /** So whatever is left out was too late, too big, passed by, or beyond a gap. */
  lemma LeftOutExplained(l: Limits, order: seq<Pooled>, i: nat)
    requires i < |order|
    ensures Explained(l, order, i)
  {
    var before, after, all := Chosen(l, order, i), Chosen(l, order, i + 1), Chosen(l, order, |order|);
    ChosenGrows(l, order, i, |order|);
    ChosenGrows(l, order, i + 1, |order|);
    if i in all {
      var q :| 0 <= q < |all| && all[q] == i;
      assert q < |after| && after[q] == i;
      assert q >= |before|;
    }
    if after == before + [i] {
      assert all[|before|] == i;
    }
  }

  /** Sizes add up from nothing. */
  lemma SizeAppend(order: seq<Pooled>, chosen: seq<nat>, i: nat)
    requires Positions(order, chosen) && i < |order|
    ensures SizeOf(order, []) == 0
    ensures SizeOf(order, chosen + [i]) == SizeOf(order, chosen) + order[i].size
  {
    assert (chosen + [i])[..|chosen|] == chosen;
  }

  lemma AscendingAppend(chosen: seq<nat>, i: nat)
    requires Ascending(chosen) && forall q :: 0 <= q < |chosen| ==> chosen[q] < i
    ensures Ascending(chosen + [i])
  {}

  /** What the choice looks like after candidate i. */
  function Next(l: Limits, order: seq<Pooled>, chosen: seq<nat>, i: nat): seq<nat>
    requires Positions(order, chosen) && i < |order|
  {
    if Takes(l, order, chosen, i) then chosen + [i] else chosen
  }

  ghost predicate Within(l: Limits, order: seq<Pooled>, chosen: seq<nat>)
    requires Positions(order, chosen)
  {
    |chosen| <= l.maxCount && SizeOf(order, chosen) <= l.maxSize && Ascending(chosen)
  }

  lemma NextIsWithin(l: Limits, order: seq<Pooled>, chosen: seq<nat>, i: nat)
    requires Positions(order, chosen) && i < |order| && Within(l, order, chosen)
    requires forall q :: 0 <= q < |chosen| ==> chosen[q] < i
    ensures Within(l, order, Next(l, order, chosen, i))
  {
    if Takes(l, order, chosen, i) {
      SizeAppend(order, chosen, i);
      AscendingAppend(chosen, i);
    }
  }

  lemma {:induction false} ChosenIsWithin(l: Limits, order: seq<Pooled>, n: nat, chosen: seq<nat>)
    requires n <= |order| && chosen == Chosen(l, order, n)
    ensures Within(l, order, chosen)
  {
    if n > 0 {
      var before := Chosen(l, order, n - 1);
      ChosenIsWithin(l, order, n - 1, before);
      NextIsWithin(l, order, before, n - 1);
      ChosenNext(l, order, n - 1);
    }
  }

  /** Both limits are kept and positions ascend, so nothing is taken twice and priority order is kept. */
  lemma WithinLimits(l: Limits, order: seq<Pooled>, n: nat)
    requires n <= |order|
    ensures Within(l, order, Chosen(l, order, n))
  {
    ChosenIsWithin(l, order, n, Chosen(l, order, n));
  }

  lemma {:induction false} NextNonceIsPast(order: seq<Pooled>, chosen: seq<nat>, sender: Address)
    requires Positions(order, chosen) && NoncesRise(order, chosen)
    ensures forall q :: 0 <= q < |chosen| && order[chosen[q]].tx.from == sender ==>
              order[chosen[q]].tx.nonce < NextNonce(order, chosen, sender)
  {
    if chosen != [] {
      var n := |chosen| - 1;
      NextNonceIsPast(order, chosen[..n], sender);
    }
  }

  ghost predicate NoncesRise(order: seq<Pooled>, chosen: seq<nat>)
    requires Positions(order, chosen)
  {
    forall p, q :: 0 <= p < q < |chosen| ==>
      order[chosen[p]].tx.from == order[chosen[q]].tx.from ==> order[chosen[p]].tx.nonce < order[chosen[q]].tx.nonce
  }

  /** The q-th choice is at or after its sender's next nonce, by no more than the gap. */
  ghost predicate InStep(l: Limits, order: seq<Pooled>, chosen: seq<nat>, q: nat)
    requires Positions(order, chosen) && q < |chosen|
  {
    var tx := order[chosen[q]].tx;
    var next := NextNonce(order, chosen[..q], tx.from);
    next <= tx.nonce <= next + l.maxNonceGap
  }

  ghost predicate AllInStep(l: Limits, order: seq<Pooled>, chosen: seq<nat>)
    requires Positions(order, chosen)
  {
    forall q :: 0 <= q < |chosen| ==> InStep(l, order, chosen, q)
  }

  lemma StepAppend(l: Limits, order: seq<Pooled>, chosen: seq<nat>, i: nat)
    requires Positions(order, chosen) && i < |order| && NoncesRise(order, chosen) && AllInStep(l, order, chosen)
    requires Fits(l, order, chosen, order[i])
    ensures NoncesRise(order, chosen + [i]) && AllInStep(l, order, chosen + [i])
  {
    NextNonceIsPast(order, chosen, order[i].tx.from);
    forall q | 0 <= q < |chosen + [i]| ensures InStep(l, order, chosen + [i], q) {
      assert (chosen + [i])[..q] == chosen[..q];
      assert chosen[..|chosen|] == chosen;
      assert q < |chosen| ==> InStep(l, order, chosen, q);
    }
  }

  lemma NextIsInStep(l: Limits, order: seq<Pooled>, chosen: seq<nat>, i: nat)
    requires Positions(order, chosen) && i < |order| && NoncesRise(order, chosen) && AllInStep(l, order, chosen)
    ensures var next := Next(l, order, chosen, i); NoncesRise(order, next) && AllInStep(l, order, next)
  {
    if Takes(l, order, chosen, i) {
      StepAppend(l, order, chosen, i);
    }
  }

  /** Per sender, chosen nonces rise strictly, start within the gap, and step by at most the gap plus one. */
  lemma {:induction false} NoncesInSteps(l: Limits, order: seq<Pooled>, n: nat)
    requires n <= |order|
    ensures NoncesRise(order, Chosen(l, order, n)) && AllInStep(l, order, Chosen(l, order, n))
  {
    if n > 0 {
      NoncesInSteps(l, order, n - 1);
      NextIsInStep(l, order, Chosen(l, order, n - 1), n - 1);
      ChosenNext(l, order, n - 1);
    }
  }

  /** Once full, nothing more is taken. */
  lemma {:induction false} FullStays(l: Limits, order: seq<Pooled>, i: nat, n: nat)
    requires i <= n <= |order| && Full(l, order, Chosen(l, order, i))
    ensures Chosen(l, order, n) == Chosen(l, order, i)
    decreases n - i
  {
    if i < n {
      FullStays(l, order, i, n - 1);
    }
  }

  // ----- who is ever selected

  ghost predicate Picks(order: seq<Pooled>, chosen: seq<nat>, sender: Address)
    requires Positions(order, chosen)
  {
    exists q :: 0 <= q < |chosen| && order[chosen[q]].tx.from == sender
  }

  lemma {:induction false} NothingPickedNothingPassed(order: seq<Pooled>, chosen: seq<nat>, sender: Address)
    requires Positions(order, chosen) && !Picks(order, chosen, sender)
    ensures NextNonce(order, chosen, sender) == 0
  {
    if chosen != [] {
      var n := |chosen| - 1;
      assert order[chosen[n]].tx.from != sender;
      assert forall q :: 0 <= q < n ==> chosen[..n][q] == chosen[q];
      NothingPickedNothingPassed(order, chosen[..n], sender);
    }
  }

  /** The next nonce due is one past the sender's last choice. */
  lemma {:induction false} NextNonceIsAfterLast(order: seq<Pooled>, chosen: seq<nat>, sender: Address, q: nat)
    requires Positions(order, chosen) && q < |chosen| && order[chosen[q]].tx.from == sender
    requires forall r :: q < r < |chosen| ==> order[chosen[r]].tx.from != sender
    ensures NextNonce(order, chosen, sender) == order[chosen[q]].tx.nonce + 1
  {
    var n := |chosen| - 1;
    if q < n {
      assert order[chosen[n]].tx.from != sender;
      NextNonceIsAfterLast(order, chosen[..n], sender, q);
    }
  }

  function TotalSize(order: seq<Pooled>, n: nat): nat
    requires n <= |order|
  {
    if n == 0 then 0 else TotalSize(order, n - 1) + order[n - 1].size
  }

  /** The limits are wide enough for the whole pool. */
  ghost predicate Roomy(l: Limits, order: seq<Pooled>) {
    |order| <= l.maxCount && TotalSize(order, |order|) <= l.maxSize
  }

  ghost predicate IsPart(order: seq<Pooled>, chosen: seq<nat>, n: nat)
    requires Positions(order, chosen) && n <= |order|
  {
    |chosen| <= n && SizeOf(order, chosen) <= TotalSize(order, n)
  }

  lemma NextIsPart(l: Limits, order: seq<Pooled>, chosen: seq<nat>, i: nat)
    requires Positions(order, chosen) && i < |order| && IsPart(order, chosen, i)
    ensures IsPart(order, Next(l, order, chosen, i), i + 1)
  {
    SizeAppend(order, chosen, i);
  }

  lemma {:induction false} ChosenIsPart(l: Limits, order: seq<Pooled>, n: nat)
    requires n <= |order|
    ensures IsPart(order, Chosen(l, order, n), n)
  {
    if n > 0 {
      ChosenIsPart(l, order, n - 1);
      NextIsPart(l, order, Chosen(l, order, n - 1), n - 1);
      ChosenNext(l, order, n - 1);
    }
  }

  lemma {:induction false} TotalSizeGrows(order: seq<Pooled>, i: nat, n: nat)
    requires i <= n <= |order|
    ensures TotalSize(order, i) <= TotalSize(order, n)
    decreases n - i
  {
    if i < n {
      TotalSizeGrows(order, i, n - 1);
    }
  }

  /** The first nonce of a sender is measured from zero, not from the account: a sender all of whose nonces lie beyond
      the gap is never selected, and with room for the whole pool those are exactly the senders left out altogether. */
  lemma SelectedFromZero(l: Limits, order: seq<Pooled>, sender: Address)
    ensures Picks(order, Chosen(l, order, |order|), sender) ==> HasNear(l, order, sender)
    ensures Roomy(l, order) ==> (Picks(order, Chosen(l, order, |order|), sender) <==> HasNear(l, order, sender))
  {
    if !HasNear(l, order, sender) {
      FarIsNeverPicked(l, order, |order|, sender);
    } else if Roomy(l, order) {
      var i :| 0 <= i < |order| && order[i].tx.from == sender && order[i].tx.nonce <= l.maxNonceGap;
      NearIsPicked(l, order, i);
    }
  }

  ghost predicate HasNear(l: Limits, order: seq<Pooled>, sender: Address) {
    exists i :: 0 <= i < |order| && order[i].tx.from == sender && order[i].tx.nonce <= l.maxNonceGap
  }

  lemma {:induction false} FarIsNeverPicked(l: Limits, order: seq<Pooled>, n: nat, sender: Address)
    requires n <= |order| && !HasNear(l, order, sender)
    ensures !Picks(order, Chosen(l, order, n), sender)
  {
    if n > 0 {
      FarIsNeverPicked(l, order, n - 1, sender);
      NothingPickedNothingPassed(order, Chosen(l, order, n - 1), sender);
      ChosenNext(l, order, n - 1);
    }
  }

  lemma NearIsTaken(l: Limits, order: seq<Pooled>, chosen: seq<nat>, i: nat)
    requires i < |order| && order[i].tx.nonce <= l.maxNonceGap && Roomy(l, order)
    requires Positions(order, chosen) && IsPart(order, chosen, i) && !Picks(order, chosen, order[i].tx.from)
    ensures Takes(l, order, chosen, i)
  {
    NothingPickedNothingPassed(order, chosen, order[i].tx.from);
    TotalSizeGrows(order, i + 1, |order|);
  }

  lemma NearIsPicked(l: Limits, order: seq<Pooled>, i: nat)
    requires i < |order| && order[i].tx.nonce <= l.maxNonceGap && Roomy(l, order)
    ensures Picks(order, Chosen(l, order, |order|), order[i].tx.from)
  {
    var before, all := Chosen(l, order, i), Chosen(l, order, |order|);
    LeftOutExplained(l, order, i);
    if Picks(order, before, order[i].tx.from) {
      var q :| 0 <= q < |before| && order[before[q]].tx.from == order[i].tx.from;
      assert all[q] == before[q];
    } else {
      ChosenIsPart(l, order, i);
      NearIsTaken(l, order, before, i);
    }
  }

  /** The chosen transactions themselves. */
  function Take(order: seq<Pooled>, chosen: seq<nat>): (txs: seq<Tx>)
    requires Positions(order, chosen)
    ensures |txs| == |chosen| && forall q :: 0 <= q < |txs| ==> txs[q] == order[chosen[q]].tx
  {
    seq(|chosen|, q requires 0 <= q < |chosen| => order[chosen[q]].tx)
  }
}
