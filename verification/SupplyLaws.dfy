/** The burn schedule and the vault in closed form: supply, fee and balances, without the rates. */
module SupplyLaws {
  import opened Base
  import opened Ledger
  import opened Supply

  type Pos = n: nat | n > 0 witness 1

  const T: nat := 1_000_000_000_000

  // ----- the schedule

  lemma FloorOfRatio(n: nat, d: Pos, q: real)
    requires q * d as real == n as real
    ensures q.Floor == n / d
  {
    var f := n / d;
    var lo, hi := f * d, (f + 1) * d;
    QuotientBounds(n, d, f);
    RealProduct(f, d, lo);
    RealProduct(f + 1, d, hi);
    Between(q, d as real, n as real, f as real, (f + 1) as real);
  }

  lemma QuotientBounds(n: nat, d: Pos, f: nat)
    requires f == n / d
    ensures f * d <= n < (f + 1) * d
  {}

  lemma Between(q: real, d: real, n: real, lo: real, hi: real)
    requires d > 0.0 && q * d == n && lo * d <= n < hi * d
    ensures lo <= q < hi
  {
    if q < lo {
      LessScales(q, lo, d);
    }
    if hi < q {
      LessScales(hi, q, d);
    }
  }

  lemma RealProduct(a: nat, b: nat, ab: nat)
    requires ab == a * b
    ensures ab as real == a as real * b as real
  {}

  lemma LessScales(a: real, b: real, x: real)
    requires a < b && x > 0.0
    ensures a * x < b * x
  {
    assert (b - a) * x > 0.0;
  }

  /** A share at the rate n/d is the fee times n divided by d, rounded down. */
  lemma ShareOfRatio(fee: nat, n: nat, d: Pos, rate: real)
    requires rate * d as real == n as real
    ensures Share(fee, rate) == fee * n / d
  {
    var part := fee as real * rate;
    RealProduct(fee, n, fee * n);
    assert part * d as real == fee as real * (rate * d as real);
    FloorOfRatio(fee * n, d, part);
    QuotientNat(fee * n, d);
  }

  lemma QuotientNat(n: nat, d: Pos)
    ensures n / d >= 0
  {}

  lemma NegativeShare(fee: nat, rate: real)
    requires rate <= 0.0
    ensures Share(fee, rate) == 0
  {
    Scale(rate, 0.0, fee as real);
  }

  /** Above 400M: 60 percent burned at the full supply, rising to 90; the genesis vault's 4 percent are used up at 530M;
      the validators of a block get 36 percent. */
  lemma GreatBurnShares(supply: nat, fee: nat)
    requires 400 * T < supply <= 550 * T
    ensures TransferSplit(supply, fee).burned == BlockSplit(supply, fee).burned == fee * (850 * T - supply) / (500 * T)
    ensures TransferSplit(supply, fee).toGenesis
            == if supply >= 530 * T then fee * (supply - 530 * T) / (500 * T) else 0
    ensures BlockSplit(supply, fee).toValidators == fee * 9 / 25
  {
    ShareOfRatio(fee, 850 * T - supply, 500 * T, BurnRate(GreatBurn, supply));
    if supply >= 530 * T {
      ShareOfRatio(fee, supply - 530 * T, 500 * T, GenesisRate(GreatBurn, supply));
    } else {
      NegativeShare(fee, GenesisRate(GreatBurn, supply));
    }
    ShareOfRatio(fee, 9, 25, NodeRate(GreatBurn, supply));
  }

  /** From 400M down to 250M: the burn falls from 90 percent to nothing, the genesis vault's share rises from 1 percent
      to 10 and the validators' from 9 to 90. */
  lemma TransitionShares(supply: nat, fee: nat)
    requires 250 * T < supply <= 400 * T
    ensures TransferSplit(supply, fee).burned == BlockSplit(supply, fee).burned
            == fee * (3 * (supply - 250 * T)) / (500 * T)
    ensures TransferSplit(supply, fee).toGenesis == fee * (50 * T + 3 * (400 * T - supply)) / (5000 * T)
    ensures BlockSplit(supply, fee).toValidators == fee * (450 * T + 27 * (400 * T - supply)) / (5000 * T)
  {
    ShareOfRatio(fee, 3 * (supply - 250 * T), 500 * T, BurnRate(Transition, supply));
    ShareOfRatio(fee, 50 * T + 3 * (400 * T - supply), 5000 * T, GenesisRate(Transition, supply));
    ShareOfRatio(fee, 450 * T + 27 * (400 * T - supply), 5000 * T, NodeRate(Transition, supply));
  }

  /** At 250M and below: nothing burned, 10 percent to the genesis vault, 90 to the validators. */
  lemma GoldenEraShares(supply: nat, fee: nat)
    requires supply <= 250 * T
    ensures TransferSplit(supply, fee).burned == BlockSplit(supply, fee).burned == 0
    ensures TransferSplit(supply, fee).toGenesis == fee / 10
    ensures BlockSplit(supply, fee).toValidators == fee * 9 / 10
  {
    NegativeShare(fee, BurnRate(GoldenEra, supply));
    ShareOfRatio(fee, 1, 10, GenesisRate(GoldenEra, supply));
    ShareOfRatio(fee, 9, 10, NodeRate(GoldenEra, supply));
  }

  /** What the two computed shares leave of the fee goes to the third party; nothing when they exceed it. */
  lemma RestOfFee(supply: nat, fee: nat)
    ensures var s := TransferSplit(supply, fee);
            s.toValidators == if s.burned + s.toGenesis <= fee then fee - s.burned - s.toGenesis else 0
    ensures var s := BlockSplit(supply, fee);
            s.toGenesis == if s.burned + s.toValidators <= fee then fee - s.burned - s.toValidators else 0
  {}

  /** The three rates come to one at every supply. */
  lemma RatesSumToOne(supply: nat)
    ensures var phase := PhaseOf(supply);
            BurnRate(phase, supply) + GenesisRate(phase, supply) + NodeRate(phase, supply) == 1.0
  {}

  // ----- transfers

  /** The checks come in order; each answer stands for the first that fails, and a failure changes nothing. What is
      deducted saturates at 128 bits. */
  lemma TransferAnswers(v: VaultState, sender: Address, receiver: Address, amount: nat, fee: nat, now: nat)
    ensures var (after, answer) := Transferred(v, sender, receiver, amount, fee, now);
            var cost := if amount + fee <= U128_MAX then amount + fee else U128_MAX;
            var parted, known := amount >= 1000 && sender != receiver, sender in v.accounts;
            var awake := known && !v.accounts[sender].isDormant;
            && (answer == Failed(AmountTooSmall) <==> amount < 1000)
            && (answer == Failed(SelfTransfer) <==> amount >= 1000 && sender == receiver)
            && (answer == Failed(AccountNotFound) <==> parted && !known)
            && (answer == Failed(DormantAccount) <==> parted && known && !awake)
            && (answer == Failed(InsufficientBalance) <==>
                parted && awake && v.accounts[sender].balance < cost)
            && (answer.Done? <==> parted && awake && v.accounts[sender].balance >= cost)
            && (answer.Failed? ==> after == v)
  {}

  /** What a transfer records: the burn leaves the supply for good, the fee and the transfer are counted. */
  lemma TransferRecords(v: VaultState, sender: Address, receiver: Address, amount: nat, fee: nat, now: nat)
    requires Transferred(v, sender, receiver, amount, fee, now).1.Done?
    ensures var (after, answer) := Transferred(v, sender, receiver, amount, fee, now);
            && answer.split == TransferSplit(v.supply, fee)
            && after.supply == (if answer.split.burned <= v.supply then v.supply - answer.split.burned else 0)
            && after.burned == v.burned + answer.split.burned
            && after.feesCollected == v.feesCollected + fee && after.transfers == v.transfers + 1
  {}

  /** Which accounts it touches: the sender's nonce moves on, both parties are active now, the genesis vault is
      credited, and no one else is written. */
  lemma TransferTouches(v: VaultState, sender: Address, receiver: Address, amount: nat, fee: nat, now: nat)
    requires Transferred(v, sender, receiver, amount, fee, now).1.Done?
    ensures var after := Transferred(v, sender, receiver, amount, fee, now).0.accounts;
            && v.accounts.Keys + {receiver} <= after.Keys <= v.accounts.Keys + {receiver, GENESIS_VAULT}
            && after[sender].nonce == v.accounts[sender].nonce + 1
            && (receiver in v.accounts ==> after[receiver].nonce == v.accounts[receiver].nonce)
            && after[sender].lastActivity == after[receiver].lastActivity == now
            && !after[sender].isDormant && !after[receiver].isDormant
            && (forall a :: a in v.accounts && a !in {sender, receiver, GENESIS_VAULT} ==> after[a] == v.accounts[a])
  {}

  // ----- distributions

  /** A block's fees are distributed unless the burn exceeds the supply; only the genesis vault's balance moves. */
  lemma DistributionMoves(v: VaultState, fee: nat, now: nat, a: Address)
    requires BalanceOf(v, a) + fee <= U128_MAX
    ensures var (after, answer) := Distributed(v, fee, now);
            var split := BlockSplit(v.supply, fee);
            if split.burned > v.supply then after == v && answer == Failed(InsufficientSupply)
            else answer == Done(split) && after.supply == v.supply - split.burned
                 && after.burned == v.burned + split.burned
                 && after.feesCollected == v.feesCollected && after.transfers == v.transfers
                 && BalanceOf(after, a) == BalanceOf(v, a) + (if a == GENESIS_VAULT then split.toGenesis else 0)
  {
    RestOfFee(v.supply, fee);
  }
}
