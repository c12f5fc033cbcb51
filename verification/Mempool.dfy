/** The transaction pool: one table and three derived indexes that must always agree with it. */
module Mempool {
  import opened Base
  import opened Ledger
  import opened Selection

  datatype Config = Config(maxSize: nat, maxTxAgeSecs: nat, minFeePerByte: nat, maxTxPerAddress: nat, maxNonceGap: nat)

  /** Hashing, serialized size and signature checks are not interpreted. */
  datatype Node = Node(hashOf: Tx -> Hash, sizeOf: Tx -> Pos, ed25519: Tx -> bool, dilithium5: Tx -> bool)

  /** What an addition sees of the clock and of the account state. */
  datatype Env = Env(now: nat, balance: Address -> nat, nonce: Address -> nat)

  datatype Reason =
    | MempoolFull | TooManyFromAddress | BasicValidationFailed | InvalidSignature | InsufficientBalance
    | InvalidNonce | FeeTooLow | ReplacementFeeTooLow

  datatype AddResult = Added | AlreadyExists | Replaced(previous: Hash) | Rejected(reason: Reason)

  type Pool = map<Hash, Pooled>

  // ----- admission

  /** Age is a 64-bit difference, so a timestamp ahead of the clock counts as very old. */
  predicate ValidBasic(cfg: Config, env: Env, tx: Tx) {
    tx.from != 0 && tx.to != 0 && tx.from != tx.to &&
    tx.amount != 0 && tx.amount + tx.fee <= U128_MAX &&
    tx.timestamp <= env.now + 30 && (env.now - tx.timestamp) % (U64_MAX + 1) <= cfg.maxTxAgeSecs &&
    0 < |tx.signature| <= 5000
  }

  predicate SignatureOk(node: Node, tx: Tx) {
    if |tx.signature| == 64 then node.ed25519(tx)
    else if |tx.signature| == 4595 then node.dilithium5(tx)
    else false
  }

  function Validate(node: Node, cfg: Config, env: Env, tx: Tx): Option<Reason> {
    if !ValidBasic(cfg, env, tx) then Some(BasicValidationFailed)
    else if !SignatureOk(node, tx) then Some(InvalidSignature)
    else if env.balance(tx.from) < SatAdd(tx.amount, tx.fee) then Some(InsufficientBalance)
    else if tx.nonce < env.nonce(tx.from) || tx.nonce > env.nonce(tx.from) + cfg.maxNonceGap then Some(InvalidNonce)
    else if tx.fee / node.sizeOf(tx) < cfg.minFeePerByte then Some(FeeTooLow)
    else None
  }

  /** More than ten percent above the existing fee per byte. */
  predicate Outbids(node: Node, existing: Pooled, tx: Tx) {
    tx.fee * 10 * existing.size > existing.tx.fee * 11 * node.sizeOf(tx)
  }

  predicate SameSlot(p: Pooled, tx: Tx) {
    p.tx.from == tx.from && p.tx.nonce == tx.nonce
  }

  /** Only these answers count as rejected in the statistics. */
  predicate IsValidationFailure(res: AddResult) {
    res.Rejected? &&
    res.reason in {BasicValidationFailed, InvalidSignature, InsufficientBalance, InvalidNonce, FeeTooLow}
  }

  // ----- the table alone

  function FromAddress(pool: Pool, a: Address): set<Hash> {
    set h | h in pool && pool[h].tx.from == a
  }

  ghost predicate Contested(pool: Pool, tx: Tx) {
    exists h :: h in pool && SameSlot(pool[h], tx)
  }

  function Wrap(node: Node, env: Env, tx: Tx): Pooled {
    Pooled(tx, env.now, node.hashOf(tx), node.sizeOf(tx))
  }

  /** Why a transaction is turned away before any slot is looked at. */
  function TurnedAway(node: Node, cfg: Config, env: Env, pool: Pool, tx: Tx): Option<AddResult> {
    if node.hashOf(tx) in pool then Some(AlreadyExists)
    else if |pool| >= cfg.maxSize then Some(Rejected(MempoolFull))
    else if |FromAddress(pool, tx.from)| >= cfg.maxTxPerAddress then Some(Rejected(TooManyFromAddress))
    else
      match Validate(node, cfg, env, tx)
      case Some(reason) => Some(Rejected(reason))
      case None => None
  }

  /** A free slot is taken; a contested one changes hands only to a clearly higher bid. */
  ghost function Placed(node: Node, env: Env, pool: Pool, tx: Tx): (Pool, AddResult) {
    if Contested(pool, tx) then
      var rival :| rival in pool && SameSlot(pool[rival], tx);
      if Outbids(node, pool[rival], tx) then ((pool - {rival})[node.hashOf(tx) := Wrap(node, env, tx)], Replaced(rival))
      else (pool, Rejected(ReplacementFeeTooLow))
    else (pool[node.hashOf(tx) := Wrap(node, env, tx)], Added)
  }

  ghost function AfterAdd(node: Node, cfg: Config, env: Env, pool: Pool, tx: Tx): (Pool, AddResult) {
    match TurnedAway(node, cfg, env, pool, tx)
    case Some(res) => (pool, res)
    case None => Placed(node, env, pool, tx)
  }

  /** What is left once the processed transactions and all nonces up to the account's are gone. */
  function AfterCleanup(env: Env, pool: Pool, processed: set<Hash>): Pool {
    map h | h in pool && h !in processed && pool[h].tx.nonce > env.nonce(pool[h].tx.from) :: pool[h]
  }

  function AfterPrune(cfg: Config, pool: Pool, now: nat): Pool {
    map h | h in pool && SatSub(now, pool[h].addedAt) <= cfg.maxTxAgeSecs :: pool[h]
  }

  /** The transactions whose nonce the account has reached. */
  function PassedNonces(env: Env, pool: Pool): set<Hash> {
    set h | h in pool && pool[h].tx.nonce <= env.nonce(pool[h].tx.from)
  }

  lemma CleanupInTwo(env: Env, pool: Pool, processed: set<Hash>)
    ensures AfterCleanup(env, pool, processed) == pool - processed - PassedNonces(env, pool - processed)
  {}

  function TooOld(cfg: Config, pool: Pool, now: nat): set<Hash> {
    set h | h in pool && SatSub(now, pool[h].addedAt) > cfg.maxTxAgeSecs
  }

  lemma PruneIsRemoval(cfg: Config, pool: Pool, now: nat)
    ensures AfterPrune(cfg, pool, now) == pool - TooOld(cfg, pool, now)
    ensures |TooOld(cfg, pool, now)| == |pool| - |AfterPrune(cfg, pool, now)|
  {
    var left := AfterPrune(cfg, pool, now);
    assert left.Keys == pool.Keys - TooOld(cfg, pool, now);
    assert |left| == |left.Keys| && |pool| == |pool.Keys|;
  }

  ghost predicate EntriesOk(node: Node, pool: Pool) {
    forall h :: h in pool ==>
      pool[h].hash == h && node.hashOf(pool[h].tx) == h && pool[h].size == node.sizeOf(pool[h].tx)
  }

  ghost predicate SlotsUnique(pool: Pool) {
    forall g, h :: g in pool && h in pool ==> SameSlot(pool[g], pool[h].tx) ==> g == h
  }

  ghost predicate WithinCapacity(cfg: Config, pool: Pool) {
    |pool| <= cfg.maxSize && forall a :: |FromAddress(pool, a)| <= cfg.maxTxPerAddress
  }

  ghost predicate TableOk(node: Node, cfg: Config, pool: Pool) {
    EntriesOk(node, pool) && SlotsUnique(pool) && WithinCapacity(cfg, pool)
  }

  lemma FewerIsOk(node: Node, cfg: Config, pool: Pool, less: Pool)
    requires TableOk(node, cfg, pool)
    requires less.Keys <= pool.Keys && forall h :: h in less ==> less[h] == pool[h]
    ensures TableOk(node, cfg, less)
  {
    SubsetSize(less.Keys, pool.Keys);
    assert |less| == |less.Keys| && |pool| == |pool.Keys|;
    forall a ensures |FromAddress(less, a)| <= cfg.maxTxPerAddress {
      forall h | h in FromAddress(less, a) ensures h in FromAddress(pool, a) {
        assert h in less.Keys && h in pool.Keys;
      }
      SubsetSize(FromAddress(less, a), FromAddress(pool, a));
    }
  }

  lemma FromAddressInsert(pool: Pool, h: Hash, p: Pooled, a: Address)
    requires h !in pool
    ensures FromAddress(pool[h := p], a) == FromAddress(pool, a) + (if p.tx.from == a then {h} else {})
  {}

  lemma FromAddressRemove(pool: Pool, h: Hash, a: Address)
    ensures FromAddress(pool - {h}, a) == FromAddress(pool, a) - {h}
  {}

  lemma CapacityInsert(cfg: Config, pool: Pool, h: Hash, p: Pooled)
    requires WithinCapacity(cfg, pool) && h !in pool
    requires |pool| < cfg.maxSize && |FromAddress(pool, p.tx.from)| < cfg.maxTxPerAddress
    ensures WithinCapacity(cfg, pool[h := p])
  {
    var more := pool[h := p];
    assert more.Keys == pool.Keys + {h};
    assert |more| == |more.Keys| && |pool| == |pool.Keys|;
    forall a ensures |FromAddress(more, a)| <= cfg.maxTxPerAddress {
      FromAddressInsert(pool, h, p, a);
    }
  }

  lemma SlotsInsert(pool: Pool, h: Hash, p: Pooled)
    requires SlotsUnique(pool) && h !in pool && !Contested(pool, p.tx)
    ensures SlotsUnique(pool[h := p])
  {
    assert forall g :: g in pool ==> !SameSlot(pool[g], p.tx);
  }

  lemma InsertIsOk(node: Node, cfg: Config, env: Env, pool: Pool, tx: Tx)
    requires TableOk(node, cfg, pool) && node.hashOf(tx) !in pool && !Contested(pool, tx)
    requires |pool| < cfg.maxSize && |FromAddress(pool, tx.from)| < cfg.maxTxPerAddress
    ensures TableOk(node, cfg, pool[node.hashOf(tx) := Wrap(node, env, tx)])
  {
    CapacityInsert(cfg, pool, node.hashOf(tx), Wrap(node, env, tx));
    SlotsInsert(pool, node.hashOf(tx), Wrap(node, env, tx));
  }

  lemma WithoutRival(node: Node, cfg: Config, pool: Pool, rival: Hash, tx: Tx)
    requires TableOk(node, cfg, pool) && rival in pool && SameSlot(pool[rival], tx)
    ensures var rest := pool - {rival};
            TableOk(node, cfg, rest) && !Contested(rest, tx) && |rest| < |pool|
            && |FromAddress(rest, tx.from)| < |FromAddress(pool, tx.from)|
  {
    var rest := pool - {rival};
    FewerIsOk(node, cfg, pool, rest);
    FromAddressRemove(pool, rival, tx.from);
    assert rival in FromAddress(pool, tx.from);
    assert rest.Keys == pool.Keys - {rival};
    assert |rest| == |rest.Keys| && |pool| == |pool.Keys|;
  }

  lemma PlacedKeepsTable(node: Node, cfg: Config, env: Env, pool: Pool, tx: Tx)
    requires TableOk(node, cfg, pool) && node.hashOf(tx) !in pool
    requires |pool| < cfg.maxSize && |FromAddress(pool, tx.from)| < cfg.maxTxPerAddress
    ensures TableOk(node, cfg, Placed(node, env, pool, tx).0)
  {
    var res := Placed(node, env, pool, tx).1;
    if res == Added {
      InsertIsOk(node, cfg, env, pool, tx);
    } else if res.Replaced? {
      WithoutRival(node, cfg, pool, res.previous, tx);
      InsertIsOk(node, cfg, env, pool - {res.previous}, tx);
    }
  }

  lemma AddKeepsTable(node: Node, cfg: Config, env: Env, pool: Pool, tx: Tx)
    requires TableOk(node, cfg, pool)
    ensures TableOk(node, cfg, AfterAdd(node, cfg, env, pool, tx).0)
  {
    if TurnedAway(node, cfg, env, pool, tx) == None {
      PlacedKeepsTable(node, cfg, env, pool, tx);
    }
  }

  /** At least as much fee per byte. */
  predicate BidsAtLeast(p: Pooled, q: Pooled) {
    p.tx.fee * q.size >= q.tx.fee * p.size
  }

  /** More fee per byte. */
  predicate BidsAbove(p: Pooled, q: Pooled) {
    p.tx.fee * q.size > q.tx.fee * p.size
  }

  lemma OutbidIsHigher(node: Node, env: Env, existing: Pooled, tx: Tx)
    requires Outbids(node, existing, tx)
    ensures BidsAbove(Wrap(node, env, tx), existing)
  {
    var ours, theirs := tx.fee * existing.size, existing.tx.fee * node.sizeOf(tx);
    assert tx.fee * 10 * existing.size == 10 * ours;
    assert existing.tx.fee * 11 * node.sizeOf(tx) == 11 * theirs;
  }

  ghost predicate SlotKept(pool: Pool, p: Pooled) {
    exists h :: h in pool && SameSlot(pool[h], p.tx) && BidsAtLeast(pool[h], p)
  }

  /** No slot of the first pool is empty, or holds a lower bid, in the second. */
  ghost predicate SlotsKept(pool: Pool, after: Pool) {
    forall g :: g in pool ==> SlotKept(after, pool[g])
  }

  lemma OldEntryKeepsSlot(pool: Pool, after: Pool, g: Hash)
    requires g in pool && g in after && after[g] == pool[g]
    ensures SlotKept(after, pool[g])
  {}

  lemma InsertKeepsSlots(pool: Pool, h: Hash, p: Pooled)
    requires h !in pool
    ensures SlotsKept(pool, pool[h := p])
  {
    forall g | g in pool ensures SlotKept(pool[h := p], pool[g]) {
      OldEntryKeepsSlot(pool, pool[h := p], g);
    }
  }

  lemma ReplaceKeepsSlots(pool: Pool, rival: Hash, h: Hash, p: Pooled)
    requires h !in pool && rival in pool && SameSlot(pool[rival], p.tx) && BidsAtLeast(p, pool[rival])
    ensures SlotsKept(pool, (pool - {rival})[h := p])
  {
    var after := (pool - {rival})[h := p];
    forall g | g in pool ensures SlotKept(after, pool[g]) {
      if g == rival {
        assert after[h] == p;
      } else {
        OldEntryKeepsSlot(pool, after, g);
      }
    }
  }

  /** Which hashes an answer stands for. */
  ghost function KeysAfter(pool: Pool, h: Hash, res: AddResult): set<Hash> {
    match res
    case Added => pool.Keys + {h}
    case Replaced(previous) => pool.Keys - {previous} + {h}
    case _ => pool.Keys
  }

  /** The two ways a transaction enters. */
  ghost predicate Entered(pool: Pool, h: Hash, p: Pooled, after: Pool, res: AddResult) {
    match res
    case Added => after == pool[h := p]
    case Replaced(rival) => rival in pool && after == (pool - {rival})[h := p] && SameSlot(pool[rival], p.tx)
                            && BidsAbove(p, pool[rival])
    case _ => after == pool
  }

  lemma PlacedEnters(node: Node, env: Env, pool: Pool, tx: Tx)
    ensures var (after, res) := Placed(node, env, pool, tx);
            Entered(pool, node.hashOf(tx), Wrap(node, env, tx), after, res)
  {
    var res := Placed(node, env, pool, tx).1;
    if res.Replaced? {
      OutbidIsHigher(node, env, pool[res.previous], tx);
    }
  }

  lemma EnteredKeepsSlots(pool: Pool, h: Hash, p: Pooled, after: Pool, res: AddResult)
    requires h !in pool && Entered(pool, h, p, after, res)
    ensures SlotsKept(pool, after)
  {
    match res {
      case Added => InsertKeepsSlots(pool, h, p);
      case Replaced(rival) => ReplaceKeepsSlots(pool, rival, h, p);
      case _ => NothingLost(pool);
    }
  }

  lemma EnteredKeys(pool: Pool, h: Hash, p: Pooled, after: Pool, res: AddResult)
    requires Entered(pool, h, p, after, res)
    ensures after.Keys == KeysAfter(pool, h, res)
  {}

  lemma NothingLost(pool: Pool)
    ensures SlotsKept(pool, pool)
  {
    forall g | g in pool ensures SlotKept(pool, pool[g]) {
      OldEntryKeepsSlot(pool, pool, g);
    }
  }

  lemma AddEnters(node: Node, cfg: Config, env: Env, pool: Pool, tx: Tx)
    ensures var (after, res) := AfterAdd(node, cfg, env, pool, tx);
            Entered(pool, node.hashOf(tx), Wrap(node, env, tx), after, res)
    ensures node.hashOf(tx) in pool ==> AfterAdd(node, cfg, env, pool, tx) == (pool, AlreadyExists)
  {
    PlacedEnters(node, env, pool, tx);
  }

  /** Adding never empties a slot or lowers its bid, a replacement bids strictly more, and the answer tells exactly
      which hashes are pooled afterwards: the transaction is new just when it was added or took over a slot. */
  lemma AddOutcome(node: Node, cfg: Config, env: Env, pool: Pool, tx: Tx, after: Pool, res: AddResult)
    requires AfterAdd(node, cfg, env, pool, tx) == (after, res)
    ensures SlotsKept(pool, after) && after.Keys == KeysAfter(pool, node.hashOf(tx), res)
    ensures res.Replaced? ==> res.previous in pool && SameSlot(pool[res.previous], tx)
                              && BidsAbove(Wrap(node, env, tx), pool[res.previous])
  {
    AddEnters(node, cfg, env, pool, tx);
    EnteredKeys(pool, node.hashOf(tx), Wrap(node, env, tx), after, res);
    if node.hashOf(tx) in pool {
      NothingLost(pool);
    } else {
      EnteredKeepsSlots(pool, node.hashOf(tx), Wrap(node, env, tx), after, res);
    }
  }

  // ----- runs

  datatype Op =
    | Add(env: Env, tx: Tx)
    | Remove(hash: Hash)
    | Cleanup(env: Env, processed: set<Hash>)
    | Prune(now: nat)

  ghost function Apply(node: Node, cfg: Config, pool: Pool, op: Op): Pool {
    match op
    case Add(env, tx) => AfterAdd(node, cfg, env, pool, tx).0
    case Remove(hash) => pool - {hash}
    case Cleanup(env, processed) => AfterCleanup(env, pool, processed)
    case Prune(now) => AfterPrune(cfg, pool, now)
  }

  ghost function Run(node: Node, cfg: Config, ops: seq<Op>): Pool {
    if ops == [] then map[] else Apply(node, cfg, Run(node, cfg, ops[..|ops| - 1]), ops[|ops| - 1])
  }

  /** Over every run: each entry under its own hash, each (sender, nonce) at most once, both capacities kept. */
  lemma {:induction false} RunKeepsTable(node: Node, cfg: Config, ops: seq<Op>)
    ensures TableOk(node, cfg, Run(node, cfg, ops))
  {
    if ops == [] {
      assert forall a :: FromAddress(map[], a) == {};
    } else {
      var pool, op := Run(node, cfg, ops[..|ops| - 1]), ops[|ops| - 1];
      RunKeepsTable(node, cfg, ops[..|ops| - 1]);
      if op.Add? {
        AddKeepsTable(node, cfg, op.env, pool, op.tx);
      } else {
        FewerIsOk(node, cfg, pool, Apply(node, cfg, pool, op));
      }
    }
  }

  /** What the pool has just let in survives the next cleanup, even one with nothing processed, exactly when it is not
      the transaction its account would execute next. */
  lemma CleanupDropsNextNonce(node: Node, cfg: Config, env: Env, pool: Pool, tx: Tx, after: Pool, res: AddResult)
    requires AfterAdd(node, cfg, env, pool, tx) == (after, res) && (res.Added? || res.Replaced?)
    ensures node.hashOf(tx) in AfterCleanup(env, after, {}) <==> tx.nonce != env.nonce(tx.from)
  {
    AddEnters(node, cfg, env, pool, tx);
    assert Validate(node, cfg, env, tx) == None;
    assert after[node.hashOf(tx)].tx == tx;
  }

  /** Everything admission asks of a transaction, its nonce aside. */
  ghost predicate Passes(node: Node, cfg: Config, env: Env, tx: Tx) {
    ValidBasic(cfg, env, tx) && SignatureOk(node, tx) && env.balance(tx.from) >= SatAdd(tx.amount, tx.fee)
    && tx.fee / node.sizeOf(tx) >= cfg.minFeePerByte
  }

  /** The pool has room for it and its slot is free. */
  ghost predicate HasRoom(node: Node, cfg: Config, pool: Pool, tx: Tx) {
    node.hashOf(tx) !in pool && |pool| < cfg.maxSize && |FromAddress(pool, tx.from)| < cfg.maxTxPerAddress
    && !Contested(pool, tx)
  }

  /** Every transaction that passes, at its account's own nonce, is added, and gone after the next cleanup. */
  lemma NextNonceIsAdmitted(node: Node, cfg: Config, env: Env, pool: Pool, tx: Tx)
    requires Passes(node, cfg, env, tx) && HasRoom(node, cfg, pool, tx) && tx.nonce == env.nonce(tx.from)
    ensures AfterAdd(node, cfg, env, pool, tx) == (pool[node.hashOf(tx) := Wrap(node, env, tx)], Added)
    ensures node.hashOf(tx) !in AfterCleanup(env, pool[node.hashOf(tx) := Wrap(node, env, tx)], {})
  {
    assert Validate(node, cfg, env, tx) == None;
  }

  // ----- the derived indexes

  type NonceIndex = map<Address, set<nat>>
  type CountIndex = map<Address, nat>
  type PriorityIndex = map<nat, seq<Hash>>

  function NoncesIn(pending: NonceIndex, a: Address): set<nat> {
    if a in pending then pending[a] else {}
  }

  function CountIn(counts: CountIndex, a: Address): nat {
    if a in counts then counts[a] else 0
  }

  function Bucket(index: PriorityIndex, key: nat): seq<Hash> {
    if key in index then index[key] else []
  }

  ghost predicate HasNonce(pool: Pool, a: Address, nonce: nat) {
    exists h :: h in pool && pool[h].tx.from == a && pool[h].tx.nonce == nonce
  }

  ghost predicate NoncesAgree(pool: Pool, pending: NonceIndex) {
    forall a, n :: n in NoncesIn(pending, a) <==> HasNonce(pool, a, n)
  }

  ghost predicate CountsAgree(pool: Pool, counts: CountIndex) {
    forall a :: CountIn(counts, a) == |FromAddress(pool, a)|
  }

  /** A bucket holds, once each, exactly the pooled hashes of its key. */
  ghost predicate BucketOk(pool: Pool, index: PriorityIndex, key: nat) {
    Distinct(Bucket(index, key)) &&
    forall h :: h in Bucket(index, key) <==> h in pool && PriorityKey(pool[h]) == key
  }

  ghost predicate BucketsAgree(pool: Pool, index: PriorityIndex) {
    forall key :: BucketOk(pool, index, key)
  }

  ghost predicate IndexesAgree(pool: Pool, pending: NonceIndex, counts: CountIndex, index: PriorityIndex) {
    NoncesAgree(pool, pending) && CountsAgree(pool, counts) && BucketsAgree(pool, index)
  }

  // ----- inserting

  lemma NoncesInsert(pool: Pool, pending: NonceIndex, h: Hash, p: Pooled)
    requires NoncesAgree(pool, pending) && h !in pool
    ensures NoncesAgree(pool[h := p], pending[p.tx.from := NoncesIn(pending, p.tx.from) + {p.tx.nonce}])
  {
    var pool', pending' := pool[h := p], pending[p.tx.from := NoncesIn(pending, p.tx.from) + {p.tx.nonce}];
    forall a, n ensures n in NoncesIn(pending', a) <==> HasNonce(pool', a, n) {
      assert n in NoncesIn(pending, a) <==> HasNonce(pool, a, n);
      assert pool'[h] == p;
      if HasNonce(pool, a, n) {
        var g :| g in pool && pool[g].tx.from == a && pool[g].tx.nonce == n;
        assert pool'[g] == pool[g];
      }
    }
  }

  lemma CountsInsert(pool: Pool, counts: CountIndex, h: Hash, p: Pooled)
    requires CountsAgree(pool, counts) && h !in pool
    ensures CountsAgree(pool[h := p], counts[p.tx.from := CountIn(counts, p.tx.from) + 1])
  {
    var counts' := counts[p.tx.from := CountIn(counts, p.tx.from) + 1];
    forall a ensures CountIn(counts', a) == |FromAddress(pool[h := p], a)| {
      assert CountIn(counts, a) == |FromAddress(pool, a)|;
      FromAddressInsert(pool, h, p, a);
    }
  }

  lemma BucketsInsert(pool: Pool, index: PriorityIndex, h: Hash, p: Pooled)
    requires BucketsAgree(pool, index) && h !in pool
    ensures BucketsAgree(pool[h := p], index[PriorityKey(p) := Bucket(index, PriorityKey(p)) + [h]])
  {
    var k := PriorityKey(p);
    var pool', index' := pool[h := p], index[k := Bucket(index, k) + [h]];
    forall key ensures BucketOk(pool', index', key) {
      assert BucketOk(pool, index, key);
      if key == k {
        assert Bucket(index', k) == Bucket(index, k) + [h];
        assert forall i :: 0 <= i < |Bucket(index, k)| ==> Bucket(index, k)[i] in Bucket(index, k);
      }
    }
  }

  // ----- removing

  lemma NoncesRemove(pool: Pool, pending: NonceIndex, h: Hash)
    requires NoncesAgree(pool, pending) && SlotsUnique(pool) && h in pool
    ensures var tx := pool[h].tx;
            NoncesAgree(pool - {h}, pending[tx.from := NoncesIn(pending, tx.from) - {tx.nonce}])
  {
    var tx := pool[h].tx;
    var pool', pending' := pool - {h}, pending[tx.from := NoncesIn(pending, tx.from) - {tx.nonce}];
    forall a, n ensures n in NoncesIn(pending', a) <==> HasNonce(pool', a, n) {
      assert n in NoncesIn(pending, a) <==> HasNonce(pool, a, n);
      if HasNonce(pool, a, n) && !(a == tx.from && n == tx.nonce) {
        var g :| g in pool && pool[g].tx.from == a && pool[g].tx.nonce == n;
        assert pool'[g] == pool[g];
      }
      if HasNonce(pool', a, n) {
        var g :| g in pool' && pool'[g].tx.from == a && pool'[g].tx.nonce == n;
        assert pool[g] == pool'[g];
        assert SameSlot(pool[g], tx) ==> g == h;
      }
    }
  }

  lemma CountsRemove(pool: Pool, counts: CountIndex, h: Hash)
    requires CountsAgree(pool, counts) && h in pool
    ensures var a := pool[h].tx.from;
            CountIn(counts, a) >= 1 && CountsAgree(pool - {h}, counts[a := CountIn(counts, a) - 1])
  {
    var from := pool[h].tx.from;
    assert h in FromAddress(pool, from);
    assert CountIn(counts, from) == |FromAddress(pool, from)|;
    var counts' := counts[from := CountIn(counts, from) - 1];
    forall a ensures CountIn(counts', a) == |FromAddress(pool - {h}, a)| {
      assert CountIn(counts, a) == |FromAddress(pool, a)|;
      FromAddressRemove(pool, h, a);
      assert h in FromAddress(pool, a) <==> a == from;
    }
  }

  /** The last element takes the place of the removed one. */
  function SwapRemove(list: seq<Hash>, pos: nat): seq<Hash>
    requires pos < |list|
  {
    list[pos := list[|list| - 1]][..|list| - 1]
  }

  lemma SwapRemoveContents(list: seq<Hash>, pos: nat)
    requires pos < |list| && Distinct(list)
    ensures Distinct(SwapRemove(list, pos))
    ensures forall h :: h in SwapRemove(list, pos) <==> h in list && h != list[pos]
  {
    var n, after := |list| - 1, SwapRemove(list, pos);
    forall h | h in list && h != list[pos] ensures h in after {
      var i :| 0 <= i < |list| && list[i] == h;
      assert after[if i == n then pos else i] == h;
    }
  }

  lemma BucketsRemove(pool: Pool, index: PriorityIndex, h: Hash, pos: nat)
    requires BucketsAgree(pool, index) && h in pool
    requires var b := Bucket(index, PriorityKey(pool[h])); pos < |b| && b[pos] == h
    ensures var k := PriorityKey(pool[h]);
            BucketsAgree(pool - {h}, index[k := SwapRemove(Bucket(index, k), pos)])
  {
    var k := PriorityKey(pool[h]);
    var pool', index' := pool - {h}, index[k := SwapRemove(Bucket(index, k), pos)];
    forall key ensures BucketOk(pool', index', key) {
      assert BucketOk(pool, index, key);
      if key == k {
        SwapRemoveContents(Bucket(index, k), pos);
      }
    }
  }

  // ----- priority order

  ghost predicate Descending(keys: seq<nat>) {
    forall i, j :: 0 <= i < j < |keys| ==> keys[i] > keys[j]
  }

  function Lookups(pool: Pool, hashes: seq<Hash>): (ps: seq<Pooled>)
    requires forall i :: 0 <= i < |hashes| ==> hashes[i] in pool
    ensures |ps| == |hashes| && forall i :: 0 <= i < |ps| ==> ps[i] == pool[hashes[i]]
  {
    seq(|hashes|, i requires 0 <= i < |hashes| => pool[hashes[i]])
  }

  lemma BucketPooled(pool: Pool, index: PriorityIndex, key: nat)
    requires BucketOk(pool, index, key)
    ensures forall i :: 0 <= i < |Bucket(index, key)| ==> Bucket(index, key)[i] in pool
    ensures forall i :: 0 <= i < |Bucket(index, key)| ==> PriorityKey(pool[Bucket(index, key)[i]]) == key
  {
    forall i | 0 <= i < |Bucket(index, key)|
      ensures Bucket(index, key)[i] in pool && PriorityKey(pool[Bucket(index, key)[i]]) == key
    {
      var h := Bucket(index, key)[i];
      assert h in Bucket(index, key);
    }
  }

  function Looked(pool: Pool, index: PriorityIndex, key: nat): seq<Pooled>
    requires BucketOk(pool, index, key)
  {
    BucketPooled(pool, index, key);
    Lookups(pool, Bucket(index, key))
  }

  /** The pooled transactions bucket by bucket. */
  function Ordered(pool: Pool, index: PriorityIndex, keys: seq<nat>): seq<Pooled>
    requires BucketsAgree(pool, index)
  {
    if keys == [] then []
    else
      assert BucketOk(pool, index, keys[|keys| - 1]);
      Ordered(pool, index, keys[..|keys| - 1]) + Looked(pool, index, keys[|keys| - 1])
  }

  ghost predicate IsPriorityOrder(pool: Pool, index: PriorityIndex, order: seq<Pooled>)
    requires BucketsAgree(pool, index)
  {
    exists keys: seq<nat> :: Descending(keys) && Elements(keys) == index.Keys && order == Ordered(pool, index, keys)
  }

  ghost predicate KeysFall(order: seq<Pooled>) {
    forall i, j :: 0 <= i < j < |order| ==> PriorityKey(order[i]) >= PriorityKey(order[j])
  }

  ghost predicate EachOnce(pool: Pool, order: seq<Pooled>, keys: seq<nat>) {
    (forall i :: 0 <= i < |order| ==>
       order[i].hash in pool && pool[order[i].hash] == order[i] && PriorityKey(order[i]) in keys) &&
    (forall i, j :: 0 <= i < j < |order| ==> order[i].hash != order[j].hash) &&
    (forall h :: h in pool && PriorityKey(pool[h]) in keys ==> pool[h] in order)
  }

  lemma {:induction false} OrderedFacts(node: Node, pool: Pool, index: PriorityIndex, keys: seq<nat>)
    requires EntriesOk(node, pool) && BucketsAgree(pool, index) && Descending(keys)
    ensures EachOnce(pool, Ordered(pool, index, keys), keys) && KeysFall(Ordered(pool, index, keys))
  {
    if keys != [] {
      var n := |keys| - 1;
      assert BucketOk(pool, index, keys[n]);
      OrderedFacts(node, pool, index, keys[..n]);
      BucketOnce(node, pool, index, keys[n]);
      AppendBucket(pool, keys[..n], Ordered(pool, index, keys[..n]), keys[n], Looked(pool, index, keys[n]));
      assert keys[..n] + [keys[n]] == keys;
    }
  }

  lemma BucketOnce(node: Node, pool: Pool, index: PriorityIndex, key: nat)
    requires EntriesOk(node, pool) && BucketOk(pool, index, key)
    ensures EachOnce(pool, Looked(pool, index, key), [key])
  {
    BucketPooled(pool, index, key);
    var bucket, ps := Bucket(index, key), Looked(pool, index, key);
    forall i | 0 <= i < |ps|
      ensures ps[i].hash == bucket[i] && ps[i].hash in pool && pool[ps[i].hash] == ps[i] && PriorityKey(ps[i]) in [key]
    {
      var h := bucket[i];
      assert pool[h].hash == h;
    }
    forall h | h in pool && PriorityKey(pool[h]) in [key] ensures pool[h] in ps {
      assert h in bucket;
      var i :| 0 <= i < |bucket| && bucket[i] == h;
      assert ps[i] == pool[h];
    }
  }

  lemma AppendBucket(pool: Pool, keys: seq<nat>, front: seq<Pooled>, key: nat, back: seq<Pooled>)
    requires EachOnce(pool, front, keys) && KeysFall(front) && EachOnce(pool, back, [key])
    requires forall i :: 0 <= i < |keys| ==> keys[i] > key
    ensures EachOnce(pool, front + back, keys + [key]) && KeysFall(front + back)
  {
    forall i | 0 <= i < |front| ensures PriorityKey(front[i]) > key {
      assert PriorityKey(front[i]) in keys;
    }
    forall j | 0 <= j < |back| ensures PriorityKey(back[j]) == key {
      assert PriorityKey(back[j]) in [key];
    }
  }

  /** The order the selector works through: every pooled transaction once, highest priority key first. */
  lemma PriorityOrderFacts(node: Node, pool: Pool, index: PriorityIndex, order: seq<Pooled>)
    requires EntriesOk(node, pool) && BucketsAgree(pool, index) && IsPriorityOrder(pool, index, order)
    ensures KeysFall(order)
    ensures forall i, j :: 0 <= i < j < |order| ==> order[i].hash != order[j].hash
    ensures forall h :: h in pool <==> exists i :: 0 <= i < |order| && order[i].hash == h
    ensures forall i :: 0 <= i < |order| ==> order[i].hash in pool && pool[order[i].hash] == order[i]
  {
    var keys: seq<nat> :| Descending(keys) && Elements(keys) == index.Keys && order == Ordered(pool, index, keys);
    OrderedFacts(node, pool, index, keys);
    forall h | h in pool ensures exists i :: 0 <= i < |order| && order[i].hash == h {
      var key := PriorityKey(pool[h]);
      assert BucketOk(pool, index, key);
      assert h in Bucket(index, key);
      assert key in Elements(keys);
      assert pool[h] in order;
    }
  }

  /** What a selection from the pool looks like: candidates looked at by falling fee per byte, both limits kept, nothing
      twice, never a lower key before a higher one, nonces rising in bounded steps per sender, and a reason for every
      pooled transaction that is left out. */
  ghost predicate SoundChoice(pool: Pool, order: seq<Pooled>, l: Limits) {
    var c := Chosen(l, order, |order|);
    PaysInOrder(order) && Within(l, order, c) && FallsWithoutRepeats(order, c)
    && NoncesRise(order, c) && AllInStep(l, order, c) && AllExplained(pool, order, l)
  }

  /** No later candidate pays a full millionth per byte more than an earlier one. */
  ghost predicate PaysInOrder(order: seq<Pooled>) {
    forall i, j :: 0 <= i < j < |order| ==> PaysNoLess(order[i], order[j])
  }

  ghost predicate FallsWithoutRepeats(order: seq<Pooled>, c: seq<nat>)
    requires Positions(order, c)
  {
    forall p, q :: 0 <= p < q < |c| ==>
      order[c[p]].hash != order[c[q]].hash && PriorityKey(order[c[p]]) >= PriorityKey(order[c[q]])
      && PaysNoLess(order[c[p]], order[c[q]])
  }

  lemma KeysFallSoFeesDo(order: seq<Pooled>)
    requires KeysFall(order)
    ensures PaysInOrder(order)
  {
    forall i, j | 0 <= i < j < |order| ensures PaysNoLess(order[i], order[j]) {
      KeyOrder(order[i], order[j]);
    }
  }

  ghost predicate AllExplained(pool: Pool, order: seq<Pooled>, l: Limits) {
    forall h :: h in pool ==> exists i :: 0 <= i < |order| && order[i].hash == h && Explained(l, order, i)
  }

  lemma AscentFalls(order: seq<Pooled>, c: seq<nat>)
    requires KeysFall(order) && forall i, j :: 0 <= i < j < |order| ==> order[i].hash != order[j].hash
    requires Positions(order, c) && Ascending(c) && PaysInOrder(order)
    ensures FallsWithoutRepeats(order, c)
  {}

  lemma EachIsExplained(pool: Pool, order: seq<Pooled>, l: Limits)
    requires forall h :: h in pool ==> exists i :: 0 <= i < |order| && order[i].hash == h
    ensures AllExplained(pool, order, l)
  {
    forall h | h in pool ensures exists i :: 0 <= i < |order| && order[i].hash == h && Explained(l, order, i) {
      var i :| 0 <= i < |order| && order[i].hash == h;
      LeftOutExplained(l, order, i);
    }
  }

  lemma SelectionIsSound(node: Node, pool: Pool, index: PriorityIndex, order: seq<Pooled>, l: Limits)
    requires EntriesOk(node, pool) && BucketsAgree(pool, index) && IsPriorityOrder(pool, index, order)
    ensures SoundChoice(pool, order, l)
  {
    PriorityOrderFacts(node, pool, index, order);
    WithinLimits(l, order, |order|);
    NoncesInSteps(l, order, |order|);
    KeysFallSoFeesDo(order);
    AscentFalls(order, Chosen(l, order, |order|));
    EachIsExplained(pool, order, l);
  }

  /** A sender whose pooled nonces all lie beyond the gap, counted from zero, is never selected, whatever the account's
      own nonce, by which admission judges. */
  lemma FarAccountsAreLeftOut(node: Node, pool: Pool, index: PriorityIndex, order: seq<Pooled>, l: Limits,
                              sender: Address)
    requires EntriesOk(node, pool) && BucketsAgree(pool, index) && IsPriorityOrder(pool, index, order)
    requires forall h :: h in pool && pool[h].tx.from == sender ==> pool[h].tx.nonce > l.maxNonceGap
    ensures !Picks(order, Chosen(l, order, |order|), sender)
  {
    PriorityOrderFacts(node, pool, index, order);
    SelectedFromZero(l, order, sender);
  }

  // ----- the pool as the node runs it

  class MempoolImpl {
    const node: Node
    const config: Config
    var transactions: Pool
    var pendingNonces: NonceIndex
    var txCountByAddress: CountIndex
    var priorityIndex: PriorityIndex
    var rejectedCount: nat
    var replacedCount: nat

    ghost predicate Valid()
      reads this
    {
      TableOk(node, config, transactions) &&
      IndexesAgree(transactions, pendingNonces, txCountByAddress, priorityIndex)
    }

    constructor (node: Node, config: Config)
      ensures Valid() && transactions == map[] && this.node == node && this.config == config
    {
      this.node, this.config := node, config;
      transactions, pendingNonces, txCountByAddress, priorityIndex := map[], map[], map[], map[];
      rejectedCount, replacedCount := 0, 0;
      new;
      RunKeepsTable(node, config, []);
      assert forall a :: FromAddress(map[], a) == {};
    }

    method AddTransaction(env: Env, tx: Tx) returns (res: AddResult)
      requires Valid()
      modifies this
      ensures Valid()
      ensures (transactions, res) == AfterAdd(node, config, env, old(transactions), tx)
      ensures replacedCount == old(replacedCount) + (if res.Replaced? then 1 else 0)
      ensures rejectedCount == old(rejectedCount) + (if IsValidationFailure(res) then 1 else 0)
    {
      AddKeepsTable(node, config, env, transactions, tx);
      assert CountIn(txCountByAddress, tx.from) == |FromAddress(transactions, tx.from)|;
      var hash := node.hashOf(tx);
      if hash in transactions {
        return AlreadyExists;
      }
      if |transactions| >= config.maxSize {
        return Rejected(MempoolFull);
      }
      if CountIn(txCountByAddress, tx.from) >= config.maxTxPerAddress {
        return Rejected(TooManyFromAddress);
      }
      var reason := Validate(node, config, env, tx);
      if reason.Some? {
        rejectedCount := rejectedCount + 1;
        return Rejected(reason.value);
      }
      assert TurnedAway(node, config, env, transactions, tx) == None;
      res := PlaceTransaction(env, tx);
    }

    method PlaceTransaction(env: Env, tx: Tx) returns (res: AddResult)
      requires Valid() && node.hashOf(tx) !in transactions
      requires TableOk(node, config, Placed(node, env, transactions, tx).0)
      modifies this
      ensures Valid()
      ensures (transactions, res) == Placed(node, env, old(transactions), tx)
      ensures replacedCount == old(replacedCount) + (if res.Replaced? then 1 else 0)
      ensures rejectedCount == old(rejectedCount)
    {
      ghost var before := transactions;
      assert tx.nonce in NoncesIn(pendingNonces, tx.from) <==> HasNonce(transactions, tx.from, tx.nonce);
      var rival: Option<Hash> := None;
      if tx.nonce in NoncesIn(pendingNonces, tx.from) {
        rival := FindSlot(tx);
        if !Outbids(node, transactions[rival.value], tx) {
          return Rejected(ReplacementFeeTooLow);
        }
      }
      if rival.Some? {
        var gone := RemoveTransaction(rival.value);
        replacedCount := replacedCount + 1;
      }
      Insert(Wrap(node, env, tx));
      res := if rival.Some? then Replaced(rival.value) else Added;
    }

    /** Scans the table for the transaction that occupies the sender's nonce. */
    method FindSlot(tx: Tx) returns (found: Option<Hash>)
      requires SlotsUnique(transactions)
      ensures found.Some? <==> Contested(transactions, tx)
      ensures found.Some? ==> found.value in transactions && SameSlot(transactions[found.value], tx)
      ensures forall h :: h in transactions && SameSlot(transactions[h], tx) ==> found == Some(h)
    {
      var hashes := Listing(transactions.Keys);
      for i := 0 to |hashes|
        invariant forall h :: h in transactions && SameSlot(transactions[h], tx) ==> h in hashes[i..]
      {
        var h := hashes[i];
        assert h in Elements(hashes);
        if SameSlot(transactions[h], tx) {
          return Some(h);
        }
      }
      return None;
    }

    method Insert(p: Pooled)
      requires IndexesAgree(transactions, pendingNonces, txCountByAddress, priorityIndex) && p.hash !in transactions
      modifies `transactions, `pendingNonces, `txCountByAddress, `priorityIndex
      ensures transactions == old(transactions)[p.hash := p]
      ensures IndexesAgree(transactions, pendingNonces, txCountByAddress, priorityIndex)
    {
      NoncesInsert(transactions, pendingNonces, p.hash, p);
      CountsInsert(transactions, txCountByAddress, p.hash, p);
      BucketsInsert(transactions, priorityIndex, p.hash, p);
      pendingNonces := pendingNonces[p.tx.from := NoncesIn(pendingNonces, p.tx.from) + {p.tx.nonce}];
      txCountByAddress := txCountByAddress[p.tx.from := CountIn(txCountByAddress, p.tx.from) + 1];
      priorityIndex := priorityIndex[PriorityKey(p) := Bucket(priorityIndex, PriorityKey(p)) + [p.hash]];
      transactions := transactions[p.hash := p];
    }

    method RemoveTransaction(hash: Hash) returns (removed: Option<Tx>)
      requires Valid()
      modifies `transactions, `pendingNonces, `txCountByAddress, `priorityIndex
      ensures Valid() && transactions == old(transactions) - {hash}
      ensures removed == if hash in old(transactions) then Some(old(transactions)[hash].tx) else None
    {
      ghost var before := transactions;
      FewerIsOk(node, config, before, before - {hash});
      if hash !in transactions {
        assert transactions - {hash} == transactions;
        return None;
      }
      var tx := transactions[hash].tx;
      NoncesRemove(before, pendingNonces, hash);
      CountsRemove(before, txCountByAddress, hash);
      assert tx.from in pendingNonces by {
        assert HasNonce(before, tx.from, tx.nonce);
        assert tx.nonce in NoncesIn(pendingNonces, tx.from);
      }
      transactions := transactions - {hash};
      pendingNonces := pendingNonces[tx.from := pendingNonces[tx.from] - {tx.nonce}];
      txCountByAddress := txCountByAddress[tx.from := txCountByAddress[tx.from] - 1];
      RemoveFromPriorityIndex(hash, before);
      return Some(tx);
    }

    /** Searches the buckets for the hash and swap-removes it from the one that holds it. */
    method RemoveFromPriorityIndex(hash: Hash, ghost before: Pool)
      requires BucketsAgree(before, priorityIndex) && hash in before
      modifies `priorityIndex
      ensures BucketsAgree(before - {hash}, priorityIndex)
    {
      ghost var home := PriorityKey(before[hash]);
      assert BucketOk(before, priorityIndex, home);
      assert hash in Bucket(priorityIndex, home);
      var keys := Sorted(priorityIndex.Keys);
      assert home in Elements(keys);
      for i := 0 to |keys|
        invariant priorityIndex == old(priorityIndex) && home in keys[i..]
      {
        var key := keys[i];
        assert key in Elements(keys);
        assert BucketOk(before, priorityIndex, key);
        var pos := PositionOf(priorityIndex[key], hash);
        if pos.Some? {
          assert hash in Bucket(priorityIndex, key);
          BucketsRemove(before, priorityIndex, hash, pos.value);
          priorityIndex := priorityIndex[key := SwapRemove(priorityIndex[key], pos.value)];
          return;
        }
      }
    }

    /** Drops everything listed; hashes not in the pool are passed over. */
    method RemoveAll(hashes: seq<Hash>)
      requires Valid()
      modifies `transactions, `pendingNonces, `txCountByAddress, `priorityIndex
      ensures Valid() && transactions == old(transactions) - Elements(hashes)
    {
      for i := 0 to |hashes|
        invariant Valid() && transactions == old(transactions) - Elements(hashes[..i])
      {
        OneFewer(old(transactions), hashes, i);
        var gone := RemoveTransaction(hashes[i]);
      }
      assert hashes[..|hashes|] == hashes;
    }

    method CleanupProcessed(env: Env, processed: seq<Hash>)
      requires Valid()
      modifies `transactions, `pendingNonces, `txCountByAddress, `priorityIndex
      ensures Valid() && transactions == AfterCleanup(env, old(transactions), Elements(processed))
    {
      RemoveAll(processed);
      var passed := Listing(PassedNonces(env, transactions));
      CleanupInTwo(env, old(transactions), Elements(processed));
      RemoveAll(passed);
    }

    method PruneExpired(now: nat) returns (count: nat)
      requires Valid()
      modifies `transactions, `pendingNonces, `txCountByAddress, `priorityIndex
      ensures Valid() && transactions == AfterPrune(config, old(transactions), now)
      ensures count == |old(transactions)| - |transactions|
    {
      var expired := TooOld(config, transactions, now);
      var hashes := Listing(expired);
      count := |expired|;
      PruneIsRemoval(config, transactions, now);
      RemoveAll(hashes);
    }

    /** Walks the priority order once, taking what fits; stops when full. */
    method SelectForBlock(maxCount: nat, maxSize: nat) returns (selected: seq<Tx>)
      requires Valid()
      ensures IsSelection(transactions, priorityIndex, Limits(maxCount, maxSize, config.maxNonceGap), selected)
    {
      var l := Limits(maxCount, maxSize, config.maxNonceGap);
      var order := PriorityList(transactions, priorityIndex);
      SelectionIsSound(node, transactions, priorityIndex, order, l);
      selected := Greedy(l, order);
    }
  }

  /** The transactions of a sound choice along the priority order. */
  ghost predicate IsSelection(pool: Pool, index: PriorityIndex, l: Limits, selected: seq<Tx>)
    requires BucketsAgree(pool, index)
  {
    exists order :: IsPriorityOrder(pool, index, order) && SoundChoice(pool, order, l) &&
                    selected == Take(order, Chosen(l, order, |order|))
  }

  lemma OneFewer(pool: Pool, hashes: seq<Hash>, i: nat)
    requires i < |hashes|
    ensures pool - Elements(hashes[..i]) - {hashes[i]} == pool - Elements(hashes[..i + 1])
  {
    assert hashes[..i + 1] == hashes[..i] + [hashes[i]];
    ElementsAppend(hashes[..i], hashes[i]);
  }

  ghost function Reversed(keys: seq<nat>, from: nat): (reversed: seq<nat>)
    requires from <= |keys|
    ensures |reversed| == |keys| - from && forall i :: 0 <= i < |reversed| ==> reversed[i] == keys[|keys| - 1 - i]
  {
    seq(|keys| - from, i requires 0 <= i < |keys| - from => keys[|keys| - 1 - i])
  }

  lemma ReversedDescends(keys: seq<nat>)
    requires Ascending(keys)
    ensures Descending(Reversed(keys, 0)) && Elements(Reversed(keys, 0)) == Elements(keys)
  {
    forall k | k in keys ensures k in Reversed(keys, 0) {
      var i :| 0 <= i < |keys| && keys[i] == k;
      assert Reversed(keys, 0)[|keys| - 1 - i] == k;
    }
  }

  lemma OrderedNext(pool: Pool, index: PriorityIndex, keys: seq<nat>, from: nat)
    requires BucketsAgree(pool, index) && 0 < from <= |keys|
    ensures BucketOk(pool, index, keys[from - 1])
    ensures Ordered(pool, index, Reversed(keys, from - 1))
            == Ordered(pool, index, Reversed(keys, from)) + Looked(pool, index, keys[from - 1])
  {
    var longer := Reversed(keys, from - 1);
    assert longer[..|longer| - 1] == Reversed(keys, from);
  }

  /** The buckets from the highest key down, as the selector walks them. */
  method PriorityList(pool: Pool, index: PriorityIndex) returns (order: seq<Pooled>)
    requires BucketsAgree(pool, index)
    ensures IsPriorityOrder(pool, index, order)
  {
    var keys := Sorted(index.Keys);
    order := [];
    var i := |keys|;
    while i > 0
      invariant 0 <= i <= |keys| && order == Ordered(pool, index, Reversed(keys, i))
    {
      OrderedNext(pool, index, keys, i);
      i := i - 1;
      order := order + Looked(pool, index, keys[i]);
    }
    WalkedIsPriorityOrder(pool, index, keys, order);
  }

  lemma WalkedIsPriorityOrder(pool: Pool, index: PriorityIndex, keys: seq<nat>, order: seq<Pooled>)
    requires BucketsAgree(pool, index) && Ascending(keys) && Elements(keys) == index.Keys
    requires order == Ordered(pool, index, Reversed(keys, 0))
    ensures IsPriorityOrder(pool, index, order)
  {
    ReversedDescends(keys);
  }

  method PositionOf(list: seq<Hash>, h: Hash) returns (pos: Option<nat>)
    ensures pos == None ==> h !in list
    ensures pos.Some? ==> pos.value < |list| && list[pos.value] == h
  {
    for i := 0 to |list|
      invariant h !in list[..i]
    {
      if list[i] == h {
        return Some(i);
      }
    }
    assert list[..|list|] == list;
    return None;
  }

  /** The tracker remembers the nonce last chosen for each sender. */
  ghost predicate Tracks(order: seq<Pooled>, chosen: seq<nat>, tracker: map<Address, nat>)
    requires Positions(order, chosen)
  {
    forall a :: NextNonce(order, chosen, a) == if a in tracker then tracker[a] + 1 else 0
  }

  lemma TakeOneMore(order: seq<Pooled>, chosen: seq<nat>, tracker: map<Address, nat>, n: nat)
    requires Positions(order, chosen) && n < |order| && Tracks(order, chosen, tracker)
    ensures Positions(order, chosen + [n])
    ensures Take(order, chosen + [n]) == Take(order, chosen) + [order[n].tx]
    ensures SizeOf(order, chosen + [n]) == SizeOf(order, chosen) + order[n].size
    ensures Tracks(order, chosen + [n], tracker[order[n].tx.from := order[n].tx.nonce])
  {
    var more := chosen + [n];
    assert more[..|more| - 1] == chosen;
  }

  /** The selection loop with its running size and per-sender nonce tracker. */
  method Greedy(l: Limits, order: seq<Pooled>) returns (selected: seq<Tx>)
    ensures selected == Take(order, Chosen(l, order, |order|))
  {
    selected := [];
    var size := 0;
    var tracker: map<Address, nat> := map[];
    var n := 0;
    while n < |order|
      invariant n <= |order|
      invariant selected == Take(order, Chosen(l, order, n))
      invariant size == SizeOf(order, Chosen(l, order, n))
      invariant Tracks(order, Chosen(l, order, n), tracker)
    {
      ghost var chosen := Chosen(l, order, n);
      if |selected| >= l.maxCount || size >= l.maxSize {
        FullStays(l, order, n, |order|);
        return;
      }
      var p := order[n];
      var expected := if p.tx.from in tracker then tracker[p.tx.from] + 1 else 0;
      assert expected == NextNonce(order, chosen, p.tx.from);
      ChosenNext(l, order, n);
      if p.tx.nonce < expected {
        assert !Takes(l, order, chosen, n);
      } else if p.tx.nonce > expected + l.maxNonceGap {
        assert !Takes(l, order, chosen, n);
      } else if size + p.size > l.maxSize {
        assert !Takes(l, order, chosen, n);
      } else {
        assert Takes(l, order, chosen, n);
        TakeOneMore(order, chosen, tracker, n);
        selected := selected + [p.tx];
        size := size + p.size;
        tracker := tracker[p.tx.from := p.tx.nonce];
      }
      n := n + 1;
    }
  }

  lemma AllFarAllLeftOut(node: Node, pool: Pool, index: PriorityIndex, l: Limits, selected: seq<Tx>)
    requires EntriesOk(node, pool) && BucketsAgree(pool, index) && IsSelection(pool, index, l, selected)
    requires forall h :: h in pool ==> pool[h].tx.nonce > l.maxNonceGap
    ensures selected == []
  {
    var order: seq<Pooled> :| IsPriorityOrder(pool, index, order) && SoundChoice(pool, order, l) &&
                              selected == Take(order, Chosen(l, order, |order|));
    var c := Chosen(l, order, |order|);
    if c != [] {
      var sender := order[c[0]].tx.from;
      FarAccountsAreLeftOut(node, pool, index, order, l, sender);
    }
  }

  /** A transaction at its account's own nonce, once that lies beyond the gap: it is admitted, and no block takes it. */
  method AdmittedNeverSelected(node: Node, config: Config, env: Env, tx: Tx, maxCount: nat, maxSize: nat)
    returns (res: AddResult, selected: seq<Tx>)
    requires Passes(node, config, env, tx) && config.maxSize > 0 && config.maxTxPerAddress > 0
    requires tx.nonce == env.nonce(tx.from) > config.maxNonceGap
    ensures res == Added && selected == []
  {
    var pool := new MempoolImpl(node, config);
    assert FromAddress(map[], tx.from) == {};
    NextNonceIsAdmitted(node, config, env, map[], tx);
    res := pool.AddTransaction(env, tx);
    selected := SelectAmongFar(pool, maxCount, maxSize);
  }

  /** Nothing is selected from a pool whose nonces all lie beyond the gap. */
  method SelectAmongFar(pool: MempoolImpl, maxCount: nat, maxSize: nat) returns (selected: seq<Tx>)
    requires pool.Valid()
    requires forall h :: h in pool.transactions ==> pool.transactions[h].tx.nonce > pool.config.maxNonceGap
    ensures selected == []
  {
    selected := pool.SelectForBlock(maxCount, maxSize);
    var l := Limits(maxCount, maxSize, pool.config.maxNonceGap);
    AllFarAllLeftOut(pool.node, pool.transactions, pool.priorityIndex, l, selected);
  }
}
