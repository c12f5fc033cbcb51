/** What the pool answers, stated on the transaction, the accounts, the clock and the table alone. */
module PoolLaws {
  import opened Base
  import opened Selection
  import opened Mempool

  // ----- what a transaction has to satisfy

  /** Not older than the configured age. A timestamp up to 30 seconds ahead counts as an age just below 2^64. */
  predicate Recent(cfg: Config, now: nat, timestamp: nat) {
    (timestamp <= now <= timestamp + cfg.maxTxAgeSecs)
    || (now < timestamp <= now + 30 && 0x1_0000_0000_0000_0000 <= cfg.maxTxAgeSecs + (timestamp - now))
  }

  /** Two different real parties, something to move that fits 128 bits, a recent timestamp, a plausible signature. */
  predicate Sane(cfg: Config, env: Env, tx: Tx) {
    tx.from != 0 && tx.to != 0 && tx.from != tx.to && tx.amount > 0 && tx.amount + tx.fee <= U128_MAX
    && Recent(cfg, env.now, tx.timestamp) && 1 <= |tx.signature| <= 5000
  }

  /** A 64-byte signature the first scheme accepts, or a 4595-byte one the second does. */
  predicate Sealed(node: Node, tx: Tx) {
    (|tx.signature| == 64 && node.ed25519(tx)) || (|tx.signature| == 4595 && node.dilithium5(tx))
  }

  predicate Covered(env: Env, tx: Tx) {
    env.balance(tx.from) >= tx.amount + tx.fee
  }

  predicate Due(cfg: Config, env: Env, tx: Tx) {
    env.nonce(tx.from) <= tx.nonce <= env.nonce(tx.from) + cfg.maxNonceGap
  }

  predicate Pays(node: Node, cfg: Config, tx: Tx) {
    tx.fee >= cfg.minFeePerByte * node.sizeOf(tx)
  }

  predicate Acceptable(node: Node, cfg: Config, env: Env, tx: Tx) {
    Sane(cfg, env, tx) && Sealed(node, tx) && Covered(env, tx) && Due(cfg, env, tx) && Pays(node, cfg, tx)
  }

  /** Not pooled yet, and neither the pool nor the sender's share of it is full. */
  predicate HasPlace(node: Node, cfg: Config, pool: Pool, tx: Tx) {
    node.hashOf(tx) !in pool && |pool| < cfg.maxSize
    && |set h | h in pool && pool[h].tx.from == tx.from| < cfg.maxTxPerAddress
  }

  lemma SaneIsValidBasic(cfg: Config, env: Env, tx: Tx)
    requires env.now <= U64_MAX
    ensures ValidBasic(cfg, env, tx) == Sane(cfg, env, tx)
  {
    var age := env.now - tx.timestamp;
    if 0 <= age {
      assert age % (U64_MAX + 1) == age;
    } else if age >= -30 {
      assert age % (U64_MAX + 1) == age + U64_MAX + 1;
    }
  }

  /** The first of the five that fails, in the order they are asked. */
  function Fault(node: Node, cfg: Config, env: Env, tx: Tx): Option<Reason> {
    if !Sane(cfg, env, tx) then Some(BasicValidationFailed)
    else if !Sealed(node, tx) then Some(InvalidSignature)
    else if !Covered(env, tx) then Some(InsufficientBalance)
    else if !Due(cfg, env, tx) then Some(InvalidNonce)
    else if !Pays(node, cfg, tx) then Some(FeeTooLow)
    else None
  }

  lemma Checked(node: Node, cfg: Config, env: Env, tx: Tx)
    requires env.now <= U64_MAX
    ensures Validate(node, cfg, env, tx) == Fault(node, cfg, env, tx)
    ensures Fault(node, cfg, env, tx) == None <==> Acceptable(node, cfg, env, tx)
  {
    SaneIsValidBasic(cfg, env, tx);
    FloorReaches(tx.fee, node.sizeOf(tx), cfg.minFeePerByte);
  }

  /** Fee per byte as a ratio. */
  ghost function Rate(fee: nat, size: Pos): real {
    fee as real / size as real
  }

  lemma RatiosCompare(a: real, b: real, c: real, d: real)
    requires b > 0.0 && d > 0.0
    ensures a / b > 1.1 * (c / d) <==> 10.0 * (a * d) > 11.0 * (c * b)
  {
    var x, y, t := a / b, c / d, b * d;
    assert a * d == x * t && c * b == y * t;
    assert t > 0.0;
    if x > 1.1 * y {
      assert (x - 1.1 * y) * t > 0.0;
    } else {
      assert (1.1 * y - x) * t >= 0.0;
    }
    assert (x - 1.1 * y) * t == x * t - 1.1 * (y * t);
  }

  lemma RealProduct(a: nat, b: nat, ab: nat)
    requires ab == a * b
    ensures ab as real == a as real * b as real
  {}

  /** Taking over a slot takes more than 1.1 times the rate of the transaction in it. */
  lemma OutbidExactly(node: Node, existing: Pooled, tx: Tx)
    ensures Outbids(node, existing, tx)
            <==> Rate(tx.fee, node.sizeOf(tx)) > 1.1 * Rate(existing.tx.fee, existing.size)
  {
    var a, b, c, d := tx.fee, node.sizeOf(tx), existing.tx.fee, existing.size;
    RatiosCompare(a as real, b as real, c as real, d as real);
    var ad, cb := a * d, c * b;
    RealProduct(a, d, ad);
    RealProduct(c, b, cb);
    assert a * 10 * d == 10 * ad && c * 11 * b == 11 * cb;
  }

  /** The transaction already pooled for the sender's nonce bids too much to be replaced. */
  ghost predicate Blocked(node: Node, pool: Pool, tx: Tx) {
    exists h :: h in pool && pool[h].tx.from == tx.from && pool[h].tx.nonce == tx.nonce
                && Rate(tx.fee, node.sizeOf(tx)) <= 1.1 * Rate(pool[h].tx.fee, pool[h].size)
  }

  ghost predicate Taken(pool: Pool, tx: Tx) {
    exists h :: h in pool && pool[h].tx.from == tx.from && pool[h].tx.nonce == tx.nonce
  }

  lemma PlacedAnswers(node: Node, env: Env, pool: Pool, tx: Tx)
    requires SlotsUnique(pool)
    ensures var answer := Placed(node, env, pool, tx).1;
            && (answer == Added <==> !Taken(pool, tx))
            && (answer == Rejected(ReplacementFeeTooLow) <==> Blocked(node, pool, tx))
            && (answer.Replaced? <==> Taken(pool, tx) && !Blocked(node, pool, tx))
            && (answer.Added? || answer.Replaced? || answer == Rejected(ReplacementFeeTooLow))
  {
    if Contested(pool, tx) {
      var rival :| rival in pool && SameSlot(pool[rival], tx);
      forall h | h in pool && SameSlot(pool[h], tx)
        ensures h == rival
      {
        assert SameSlot(pool[h], pool[rival].tx);
      }
      OutbidExactly(node, pool[rival], tx);
    }
  }

  /** Who gets in: exactly the acceptable transactions there is a place for, into a free slot or over a lower bid. */
  lemma Admission(node: Node, cfg: Config, env: Env, pool: Pool, tx: Tx)
    requires SlotsUnique(pool) && env.now <= U64_MAX
    ensures var (after, answer) := AfterAdd(node, cfg, env, pool, tx);
            var welcome := HasPlace(node, cfg, pool, tx) && Acceptable(node, cfg, env, tx);
            && (answer == Added <==> welcome && !Taken(pool, tx))
            && (answer.Replaced? <==> welcome && Taken(pool, tx) && !Blocked(node, pool, tx))
            && (answer == Rejected(ReplacementFeeTooLow) <==> welcome && Blocked(node, pool, tx))
  {
    Checked(node, cfg, env, tx);
    PlacedAnswers(node, env, pool, tx);
    assert FromAddress(pool, tx.from) == set h | h in pool && pool[h].tx.from == tx.from;
  }

  /** The other answers, and what each stands for: nothing new, no place, or the first fault. */
  lemma Refusals(node: Node, cfg: Config, env: Env, pool: Pool, tx: Tx, fault: Reason)
    requires SlotsUnique(pool) && env.now <= U64_MAX
    requires fault !in {MempoolFull, TooManyFromAddress, ReplacementFeeTooLow}
    ensures var answer := AfterAdd(node, cfg, env, pool, tx).1;
            var known, full := node.hashOf(tx) in pool, |pool| >= cfg.maxSize;
            && (answer == AlreadyExists <==> known)
            && (answer == Rejected(MempoolFull) <==> !known && full)
            && (answer == Rejected(TooManyFromAddress) <==> !known && !full && !HasPlace(node, cfg, pool, tx))
            && (answer == Rejected(fault) <==>
                HasPlace(node, cfg, pool, tx) && Fault(node, cfg, env, tx) == Some(fault))
  {
    Checked(node, cfg, env, tx);
    PlacedAnswers(node, env, pool, tx);
    assert FromAddress(pool, tx.from) == set h | h in pool && pool[h].tx.from == tx.from;
  }

  // ----- over whole runs

  /** The k-th operation brought this entry, at that time, and it was acceptable then. */
  ghost predicate Brought(node: Node, cfg: Config, ops: seq<Op>, k: nat, h: Hash, p: Pooled) {
    k < |ops| && ops[k].Add? && Acceptable(node, cfg, ops[k].env, ops[k].tx)
    && node.hashOf(ops[k].tx) == h && p == Pooled(ops[k].tx, ops[k].env.now, h, node.sizeOf(ops[k].tx))
  }

  ghost predicate Clocked(ops: seq<Op>) {
    forall k :: 0 <= k < |ops| && ops[k].Add? ==> ops[k].env.now <= U64_MAX
  }

  lemma EntersOrStays(node: Node, cfg: Config, env: Env, pool: Pool, tx: Tx, h: Hash)
    requires SlotsUnique(pool) && env.now <= U64_MAX && h in AfterAdd(node, cfg, env, pool, tx).0
    ensures var after := AfterAdd(node, cfg, env, pool, tx).0;
            (h in pool && after[h] == pool[h])
            || (h == node.hashOf(tx) && Acceptable(node, cfg, env, tx)
                && after[h] == Pooled(tx, env.now, h, node.sizeOf(tx)))
  {
    AddEnters(node, cfg, env, pool, tx);
    Admission(node, cfg, env, pool, tx);
    var (after, res) := AfterAdd(node, cfg, env, pool, tx);
    if h == node.hashOf(tx) && (res.Added? || res.Replaced?) {
      assert after[h] == Wrap(node, env, tx);
    }
  }

  /** Every pooled transaction was acceptable when it arrived, and is stamped with that moment. */
  lemma {:induction false} PooledWasAcceptable(node: Node, cfg: Config, ops: seq<Op>, h: Hash)
    requires Clocked(ops) && h in Run(node, cfg, ops)
    ensures exists k: nat :: Brought(node, cfg, ops, k, h, Run(node, cfg, ops)[h])
  {
    var n := |ops| - 1;
    var pool, p := Run(node, cfg, ops[..n]), Run(node, cfg, ops)[h];
    RunKeepsTable(node, cfg, ops[..n]);
    if ops[n].Add? {
      EntersOrStays(node, cfg, ops[n].env, pool, ops[n].tx, h);
    }
    if h in pool && pool[h] == p {
      PooledWasAcceptable(node, cfg, ops[..n], h);
      var k: nat :| Brought(node, cfg, ops[..n], k, h, p);
      assert Brought(node, cfg, ops, k, h, p);
    } else {
      assert Brought(node, cfg, ops, n, h, p);
    }
  }

  /** Pruning drops exactly what arrived more than the configured age ago. */
  lemma PruneByAge(cfg: Config, pool: Pool, now: nat, h: Hash)
    requires h in pool
    ensures h in AfterPrune(cfg, pool, now) <==> now <= pool[h].addedAt + cfg.maxTxAgeSecs
    ensures h in AfterPrune(cfg, pool, now) ==> AfterPrune(cfg, pool, now)[h] == pool[h]
  {}

  /** Cleanup drops exactly what was processed and what its account's nonce has reached. */
  lemma CleanupByNonce(env: Env, pool: Pool, processed: set<Hash>, h: Hash)
    requires h in pool
    ensures h !in AfterCleanup(env, pool, processed)
            <==> h in processed || pool[h].tx.nonce <= env.nonce(pool[h].tx.from)
    ensures h in AfterCleanup(env, pool, processed) ==> AfterCleanup(env, pool, processed)[h] == pool[h]
  {}
}
