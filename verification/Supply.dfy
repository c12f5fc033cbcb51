/** The three-phase burn schedule: fee shares, the supply floor, and the fee bound that protects it. */
module Supply {
  import opened Base
  import opened Ledger

  const TOTAL_SUPPLY: nat := 550_000_000_000_000
  const TRANSITION_AT: nat := 400_000_000_000_000
  const GOLDEN_AT: nat := 250_000_000_000_000
  const SPAN: real := 150_000_000_000_000.0
  const MIN_BALANCE: nat := 1_000
  const GENESIS_VAULT: Address := 0

  /** The largest fee no single operation can push the supply under the floor with. */
  const MAX_SAFE_FEE: nat := 166_666_666_666_667

  datatype SupplyPhase = GreatBurn | Transition | GoldenEra

  function PhaseOf(supply: nat): SupplyPhase {
    if supply > TRANSITION_AT then GreatBurn
    else if supply > GOLDEN_AT then Transition
    else GoldenEra
  }

  function BurnRate(phase: SupplyPhase, supply: nat): real {
    match phase
    case GreatBurn => 0.60 + ((TOTAL_SUPPLY as int - supply) as real / SPAN) * 0.30
    case Transition => 0.90 * ((supply as int - GOLDEN_AT) as real / SPAN)
    case GoldenEra => 0.0
  }

  function GenesisRate(phase: SupplyPhase, supply: nat): real {
    match phase
    case GreatBurn => 1.0 - BurnRate(phase, supply) - 0.36
    case Transition => 0.01 + ((TRANSITION_AT as int - supply) as real / SPAN) * 0.09
    case GoldenEra => 0.10
  }

  function NodeRate(phase: SupplyPhase, supply: nat): real {
    match phase
    case GreatBurn => 0.36
    case Transition => 1.0 - BurnRate(phase, supply) - GenesisRate(phase, supply)
    case GoldenEra => 0.90
  }

  /** The whole units of a share; a negative share is cut off at zero. */
  function Share(fee: nat, rate: real): nat {
    Whole(fee as real * rate)
  }

  function Whole(part: real): nat {
    if part.Floor < 0 then 0 else part.Floor
  }

  function Burned(supply: nat, fee: nat): nat {
    Share(fee, BurnRate(PhaseOf(supply), supply))
  }

  datatype Split = Split(burned: nat, toValidators: nat, toGenesis: nat)

  /** A transfer computes the genesis share and leaves the rest to the validators. */
  function TransferSplit(supply: nat, fee: nat): Split {
    var burned, genesis := Burned(supply, fee), Share(fee, GenesisRate(PhaseOf(supply), supply));
    Split(burned, SatSub(SatSub(fee, burned), genesis), genesis)
  }

  /** A block's fees are split the other way: the validators' share is computed, the genesis vault gets the rest. */
  function BlockSplit(supply: nat, fee: nat): Split {
    var burned, validators := Burned(supply, fee), Share(fee, NodeRate(PhaseOf(supply), supply));
    Split(burned, validators, SatSub(SatSub(fee, burned), validators))
  }

  predicate AddsUp(s: Split, fee: nat) {
    s.burned + s.toValidators + s.toGenesis == fee
  }

  // ----- shares

  lemma ShareBound(fee: nat, rate: real, cap: real)
    requires 0.0 <= rate <= cap
    ensures Share(fee, rate) as real <= fee as real * rate <= fee as real * cap
  {
    Scale(0.0, rate, fee as real);
    Scale(rate, cap, fee as real);
  }

  lemma Spread(x: real, a: real, b: real)
    ensures x * a + x * b == x * (a + b)
  {}

  lemma TwoWholes(p1: real, p2: real, whole: nat)
    requires 0.0 <= p1 <= whole as real && p1 + p2 <= whole as real
    ensures Whole(p1) + Whole(p2) <= whole
  {
    if p2 >= 0.0 {
      assert (Whole(p1) + Whole(p2)) as real <= p1 + p2;
    }
  }

  lemma AtMostWhole(x: real, a: real)
    requires x >= 0.0 && a <= 1.0
    ensures x * a <= x
  {
    assert x * (1.0 - a) >= 0.0;
    assert x * (1.0 - a) == x - x * a;
  }

  lemma TwoParts(x: real, a: real, b: real) returns (p: real, q: real)
    requires x >= 0.0 && 0.0 <= a <= 1.0 && a + b <= 1.0
    ensures p == x * a && q == x * b && 0.0 <= p <= x && p + q <= x
  {
    p, q := x * a, x * b;
    AtMostWhole(x, a);
    AtMostWhole(x, a + b);
    Spread(x, a, b);
  }

  lemma SharesAreWholes(fee: nat, r1: real, r2: real) returns (p: real, q: real)
    requires 0.0 <= r1 <= 1.0 && r1 + r2 <= 1.0
    ensures Share(fee, r1) == Whole(p) && Share(fee, r2) == Whole(q)
    ensures 0.0 <= p <= fee as real && p + q <= fee as real
  {
    p, q := TwoParts(fee as real, r1, r2);
  }

  lemma TwoShares(fee: nat, r1: real, r2: real)
    requires 0.0 <= r1 <= 1.0 && r1 + r2 <= 1.0
    ensures Share(fee, r1) + Share(fee, r2) <= fee
  {
    var p, q := SharesAreWholes(fee, r1, r2);
    TwoWholes(p, q, fee);
  }

  lemma BurnRateRange(supply: nat)
    requires supply <= TOTAL_SUPPLY
    ensures 0.0 <= BurnRate(PhaseOf(supply), supply) <= 0.90
  {}

  /** A transfer's three shares always add up to its fee. */
  lemma TransferSharesAddUp(supply: nat, fee: nat)
    requires supply <= TOTAL_SUPPLY
    ensures AddsUp(TransferSplit(supply, fee), fee)
  {
    var phase := PhaseOf(supply);
    TwoShares(fee, BurnRate(phase, supply), GenesisRate(phase, supply));
  }

  /** Between 400M and 530M a block's burned and validators' shares are computed at rates that exceed one in sum. */
  const GAP_ENDS_AT: nat := 530_000_000_000_000

  /** For every fee that is answered with shares, that is, whose burn the supply can bear: the shares add up, exactly
      when the supply is at least 530M or at most 400M. */
  lemma BlockSharesAddUp(supply: nat)
    requires supply <= TOTAL_SUPPLY
    ensures (forall fee :: Burned(supply, fee) <= supply ==> AddsUp(BlockSplit(supply, fee), fee))
            <==> supply >= GAP_ENDS_AT || supply <= TRANSITION_AT
  {
    if supply >= GAP_ENDS_AT || supply <= TRANSITION_AT {
      forall fee ensures AddsUp(BlockSplit(supply, fee), fee) {
        OutsideTheGap(supply, fee);
      }
    } else {
      var fee := Overspent(supply);
    }
  }

  lemma OutsideTheGap(supply: nat, fee: nat)
    requires GAP_ENDS_AT <= supply <= TOTAL_SUPPLY || supply <= TRANSITION_AT
    ensures AddsUp(BlockSplit(supply, fee), fee)
  {
    TwoShares(fee, BurnRate(PhaseOf(supply), supply), NodeRate(PhaseOf(supply), supply));
  }

  /** In the gap a 64 percent burn is raised by the distance to its upper end. */
  lemma GapBurn(supply: nat, fee: nat)
    requires TRANSITION_AT < supply < GAP_ENDS_AT
    ensures fee as real * BurnRate(PhaseOf(supply), supply)
            == 0.64 * fee as real + (fee * (GAP_ENDS_AT - supply)) as real / 500_000_000_000_000.0
  {
    var d := (GAP_ENDS_AT - supply) as real;
    assert BurnRate(PhaseOf(supply), supply) == 0.64 + d / 500_000_000_000_000.0;
    assert (fee * (GAP_ENDS_AT - supply)) as real == fee as real * d;
  }

  /** For every supply in the gap, a fee that is accepted and whose shares come to more than it. */
  lemma Overspent(supply: nat) returns (fee: nat)
    requires TRANSITION_AT < supply < GAP_ENDS_AT
    ensures Burned(supply, fee) <= supply
    ensures Burned(supply, fee) + Share(fee, NodeRate(PhaseOf(supply), supply)) > fee
  {
    var d := GAP_ENDS_AT - supply;
    fee := if d >= 20_000_000_000_000 then 25 else 500_000_000_000_000;
    GapBurn(supply, fee);
    assert Share(fee, 0.36) == if fee == 25 then 9 else 180_000_000_000_000;
  }

  /** Fees small enough to respect the supply floor still do not add up in the gap, except three units below its end. */
  lemma SafeSharesAddUp(supply: nat)
    requires supply <= TOTAL_SUPPLY
    ensures (forall fee: nat :: fee <= MAX_SAFE_FEE ==> AddsUp(BlockSplit(supply, fee), fee))
            <==> supply >= GAP_ENDS_AT - 3 || supply <= TRANSITION_AT
  {
    if supply >= GAP_ENDS_AT - 3 || supply <= TRANSITION_AT {
      forall fee: nat | fee <= MAX_SAFE_FEE ensures AddsUp(BlockSplit(supply, fee), fee) {
        if TRANSITION_AT < supply < GAP_ENDS_AT {
          JustBelowTheEnd(supply, fee);
        } else {
          OutsideTheGap(supply, fee);
        }
      }
    } else {
      var fee := 166_666_666_666_650;
      GapBurn(supply, fee);
      assert fee * (GAP_ENDS_AT - supply) >= fee * 4;
      assert Share(fee, 0.36) == 59_999_999_999_994;
      assert Burned(supply, fee) >= 106_666_666_666_657;
      assert !AddsUp(BlockSplit(supply, fee), fee);
    }
  }

  /** At most three units below the end, a safe fee's burn exceeds 64 percent by little more than one unit. */
  lemma SmallExcess(supply: nat, fee: nat) returns (part: real, excess: real)
    requires GAP_ENDS_AT - 3 <= supply < GAP_ENDS_AT && fee <= MAX_SAFE_FEE
    ensures Burned(supply, fee) == Whole(part) && part == 0.64 * fee as real + excess
    ensures excess < 1.0 || (fee == MAX_SAFE_FEE && excess < 1.01)
  {
    var d := GAP_ENDS_AT - supply;
    GapBurn(supply, fee);
    assert d == 1 || d == 2 || d == 3;
    part, excess := fee as real * BurnRate(PhaseOf(supply), supply), (fee * d) as real / 500_000_000_000_000.0;
  }

  lemma ExcessFits(fee: nat, part: real, excess: real)
    requires part == 0.64 * fee as real + excess
    requires excess < 1.0 || (fee == MAX_SAFE_FEE && excess < 1.01)
    ensures Whole(part) + Whole(0.36 * fee as real) <= fee
  {
    var validators := Whole(0.36 * fee as real);
    if fee == MAX_SAFE_FEE {
      assert validators == 60_000_000_000_000;
    }
    assert part < (fee - validators) as real + 1.0;
  }

  lemma JustBelowTheEnd(supply: nat, fee: nat)
    requires GAP_ENDS_AT - 3 <= supply < GAP_ENDS_AT && fee <= MAX_SAFE_FEE
    ensures AddsUp(BlockSplit(supply, fee), fee)
  {
    var part, excess := SmallExcess(supply, fee);
    ExcessFits(fee, part, excess);
    assert Share(fee, 0.36) == Whole(0.36 * fee as real);
  }

  // ----- the floor

  lemma GreatBurnFloor(supply: nat, fee: nat)
    requires TRANSITION_AT < supply <= TOTAL_SUPPLY && fee <= MAX_SAFE_FEE
    ensures Burned(supply, fee) <= supply - GOLDEN_AT
  {
    BurnRateRange(supply);
    ShareBound(fee, BurnRate(GreatBurn, supply), 0.90);
  }

  lemma TransitionFloor(supply: nat, fee: nat)
    requires GOLDEN_AT < supply <= TRANSITION_AT && fee <= MAX_SAFE_FEE
    ensures Burned(supply, fee) <= supply - GOLDEN_AT
  {
    var above := (supply - GOLDEN_AT) as real;
    var y := above / SPAN;
    var part := fee as real * BurnRate(Transition, supply);
    assert part == y * (0.90 * fee as real);
    Scale(0.90 * fee as real, SPAN + 0.3, y);
    Spread(y, SPAN, 0.3);
    assert part <= above + 0.3 * y;
    assert part < above + 1.0;
  }

  lemma Scale(a: real, b: real, x: real)
    requires a <= b && x >= 0.0
    ensures x * a <= x * b
  {
    assert x * (b - a) >= 0.0;
    Spread(x, a, b - a);
  }

  /** One operation keeps the supply at or above 250M from every supply above it exactly for fees up to MAX_SAFE_FEE. */
  lemma MaxSafeFee(fee: nat)
    ensures (forall supply :: GOLDEN_AT <= supply <= TOTAL_SUPPLY ==> Burned(supply, fee) <= supply - GOLDEN_AT)
            <==> fee <= MAX_SAFE_FEE
  {
    if fee <= MAX_SAFE_FEE {
      forall supply | GOLDEN_AT <= supply <= TOTAL_SUPPLY ensures Burned(supply, fee) <= supply - GOLDEN_AT {
        if supply > TRANSITION_AT {
          GreatBurnFloor(supply, fee);
        } else if supply > GOLDEN_AT {
          TransitionFloor(supply, fee);
        }
      }
    } else {
      assert BurnRate(Transition, TRANSITION_AT) == 0.90;
      assert fee as real * 0.90 >= 150_000_000_000_001.0;
      assert Burned(TRANSITION_AT, fee) > TRANSITION_AT - GOLDEN_AT;
    }
  }

  // ----- the vault

  datatype VaultState = VaultState(supply: nat, burned: nat, feesCollected: nat, transfers: nat, accounts: Accounts)

  datatype VaultError =
    | AmountTooSmall | SelfTransfer | AccountNotFound | DormantAccount | InsufficientBalance | InsufficientSupply

  datatype Outcome = Done(split: Split) | Failed(error: VaultError)

  function CreditGenesis(accounts: Accounts, amount: nat, now: nat): Accounts {
    if amount == 0 then accounts
    else
      var genesis := LookupOr(accounts, GENESIS_VAULT, NewAccount(0, now));
      accounts[GENESIS_VAULT := genesis.(balance := SatAdd(genesis.balance, amount))]
  }

  /** Sender and receiver are read before the genesis credit and written after it. */
  function Transferred(v: VaultState, sender: Address, receiver: Address, amount: nat, fee: nat, now: nat)
      : (VaultState, Outcome)
  {
    if amount < MIN_BALANCE then (v, Failed(AmountTooSmall))
    else if sender == receiver then (v, Failed(SelfTransfer))
    else if sender !in v.accounts then (v, Failed(AccountNotFound))
    else if v.accounts[sender].isDormant then (v, Failed(DormantAccount))
    else if v.accounts[sender].balance < SatAdd(amount, fee) then (v, Failed(InsufficientBalance))
    else
      var before := v.accounts[sender];
      var from := Active(before.(nonce := before.nonce + 1, balance := before.balance - SatAdd(amount, fee)), now);
      var target := LookupOr(v.accounts, receiver, NewAccount(0, now));
      var to := Active(target.(balance := SatAdd(target.balance, amount)), now);
      var split := TransferSplit(v.supply, fee);
      (VaultState(SatSub(v.supply, split.burned), v.burned + split.burned, v.feesCollected + fee, v.transfers + 1,
                  CreditGenesis(v.accounts, split.toGenesis, now)[sender := from][receiver := to]),
       Done(split))
  }

  function BalanceOf(v: VaultState, a: Address): nat {
    if a in v.accounts then v.accounts[a].balance else 0
  }

  /** Where a transfer's money goes. The genesis vault's own share is written over, and lost, exactly when the vault is
      itself a party to the transfer. */
  lemma TransferMoves(v: VaultState, sender: Address, receiver: Address, amount: nat, fee: nat, now: nat, a: Address)
    requires BalanceOf(v, a) + amount + fee <= U128_MAX && v.supply <= TOTAL_SUPPLY
    requires Transferred(v, sender, receiver, amount, fee, now).1.Done?
    ensures var (after, res) := Transferred(v, sender, receiver, amount, fee, now);
            var share := if a == GENESIS_VAULT && a != sender && a != receiver then res.split.toGenesis else 0;
            BalanceOf(after, a) + (if a == sender then amount + fee else 0)
            == BalanceOf(v, a) + (if a == receiver then amount else 0) + share
  {
    TransferSharesAddUp(v.supply, fee);
  }

  function Distributed(v: VaultState, fee: nat, now: nat): (VaultState, Outcome) {
    var split := BlockSplit(v.supply, fee);
    if v.supply < split.burned then (v, Failed(InsufficientSupply))
    else (v.(supply := v.supply - split.burned, burned := v.burned + split.burned,
             accounts := CreditGenesis(v.accounts, split.toGenesis, now)),
          Done(split))
  }

  /** Over all distributions at a given supply that succeed: their shares add up exactly outside the gap. */
  lemma DistributionsAddUp(supply: nat)
    requires supply <= TOTAL_SUPPLY
    ensures (forall v: VaultState, fee, now | v.supply == supply && Distributed(v, fee, now).1.Done? ::
               AddsUp(Distributed(v, fee, now).1.split, fee))
            <==> supply >= GAP_ENDS_AT || supply <= TRANSITION_AT
  {
    BlockSharesAddUp(supply);
    if TRANSITION_AT < supply < GAP_ENDS_AT {
      var fee := Overspent(supply);
      var v := VaultState(supply, 0, 0, 0, map[]);
      assert Distributed(v, fee, 0).1 == Done(BlockSplit(supply, fee));
    }
  }

  datatype Op =
    | Transfer(sender: Address, receiver: Address, amount: nat, fee: nat, now: nat)
    | Distribute(fee: nat, now: nat)

  function Apply(v: VaultState, op: Op): VaultState {
    match op
    case Transfer(sender, receiver, amount, fee, now) => Transferred(v, sender, receiver, amount, fee, now).0
    case Distribute(fee, now) => Distributed(v, fee, now).0
  }

  function Run(v: VaultState, ops: seq<Op>): VaultState {
    if ops == [] then v else Apply(Run(v, ops[..|ops| - 1]), ops[|ops| - 1])
  }

  /** Every unit is either in supply or burned, and the supply lies between the floor and the total. */
  ghost predicate SupplyOk(v: VaultState) {
    v.supply + v.burned == TOTAL_SUPPLY && GOLDEN_AT <= v.supply
  }

  ghost function PhaseRank(v: VaultState): nat {
    match PhaseOf(v.supply)
    case GreatBurn => 0
    case Transition => 1
    case GoldenEra => 2
  }

  lemma ApplyKeeps(v: VaultState, op: Op)
    requires SupplyOk(v) && op.fee <= MAX_SAFE_FEE
    ensures SupplyOk(Apply(v, op)) && Apply(v, op).supply <= v.supply
    ensures PhaseRank(v) <= PhaseRank(Apply(v, op))
  {
    MaxSafeFee(op.fee);
    assert Burned(v.supply, op.fee) <= v.supply - GOLDEN_AT;
  }

  /** Over every run whose fees stay within the bound: nothing is lost, the floor holds, no phase comes back. */
  lemma {:induction false} RunKeeps(v: VaultState, ops: seq<Op>, k: nat)
    requires SupplyOk(v) && k <= |ops|
    requires forall i :: 0 <= i < |ops| ==> ops[i].fee <= MAX_SAFE_FEE
    ensures SupplyOk(Run(v, ops))
    ensures PhaseRank(Run(v, ops[..k])) <= PhaseRank(Run(v, ops))
  {
    if k == |ops| {
      assert ops[..k] == ops;
    }
    if ops != [] {
      var n := |ops| - 1;
      RunKeeps(v, ops[..n], if k <= n then k else n);
      ApplyKeeps(Run(v, ops[..n]), ops[n]);
      if k <= n {
        assert ops[..n][..k] == ops[..k];
      }
    }
  }

  class VaultManager {
    var totalSupply: nat
    var totalBurned: nat
    var totalFeesCollected: nat
    var totalTransfers: nat
    var accounts: Accounts

    ghost function State(): VaultState
      reads this
    {
      VaultState(totalSupply, totalBurned, totalFeesCollected, totalTransfers, accounts)
    }

    constructor (accounts: Accounts)
      ensures State() == VaultState(TOTAL_SUPPLY, 0, 0, 0, accounts) && SupplyOk(State())
    {
      totalSupply, totalBurned, totalFeesCollected, totalTransfers := TOTAL_SUPPLY, 0, 0, 0;
      this.accounts := accounts;
    }

    method Transfer(sender: Address, receiver: Address, amount: nat, fee: nat, now: nat) returns (res: Outcome)
      requires totalSupply <= TOTAL_SUPPLY
      modifies this
      ensures totalSupply <= TOTAL_SUPPLY
      ensures (State(), res) == Transferred(old(State()), sender, receiver, amount, fee, now)
      ensures res.Done? ==> AddsUp(res.split, fee)
      ensures amount + fee <= U128_MAX ==>
                (res.Done? <==> amount >= 1000 && sender != receiver && sender in old(accounts)
                                && !old(accounts)[sender].isDormant && old(accounts)[sender].balance >= amount + fee)
      ensures old(SupplyOk(State())) && fee <= MAX_SAFE_FEE ==> SupplyOk(State())
    {
      if SupplyOk(State()) && fee <= MAX_SAFE_FEE {
        ApplyKeeps(State(), Op.Transfer(sender, receiver, amount, fee, now));
      }
      TransferSharesAddUp(totalSupply, fee);
      if amount < MIN_BALANCE {
        return Failed(AmountTooSmall);
      }
      if sender == receiver {
        return Failed(SelfTransfer);
      }
      var deduct := SatAdd(amount, fee);
      if sender !in accounts {
        return Failed(AccountNotFound);
      }
      var from := accounts[sender];
      if from.isDormant {
        return Failed(DormantAccount);
      }
      if from.balance < deduct {
        return Failed(InsufficientBalance);
      }
      from := Active(from.(nonce := from.nonce + 1, balance := from.balance - deduct), now);
      var to := LookupOr(accounts, receiver, NewAccount(0, now));
      to := Active(to.(balance := SatAdd(to.balance, amount)), now);

      var phase := PhaseOf(totalSupply);
      var burned := Share(fee, BurnRate(phase, totalSupply));
      var toGenesis := Share(fee, GenesisRate(phase, totalSupply));
      var toValidators := SatSub(SatSub(fee, burned), toGenesis);
      if burned > 0 {
        totalSupply := SatSub(totalSupply, burned);
        totalBurned := totalBurned + burned;
      }
      accounts := CreditGenesis(accounts, toGenesis, now);
      accounts := accounts[sender := from][receiver := to];
      totalFeesCollected := totalFeesCollected + fee;
      totalTransfers := totalTransfers + 1;
      return Done(Split(burned, toValidators, toGenesis));
    }

    method DistributeFees(fee: nat, now: nat) returns (res: Outcome)
      requires totalSupply <= TOTAL_SUPPLY
      modifies this
      ensures totalSupply <= TOTAL_SUPPLY
      ensures (State(), res) == Distributed(old(State()), fee, now)
      ensures old(SupplyOk(State())) && fee <= MAX_SAFE_FEE ==> res.Done? && SupplyOk(State())
      ensures res.Done? && (old(totalSupply) >= GAP_ENDS_AT || old(totalSupply) <= TRANSITION_AT) ==>
                AddsUp(res.split, fee)
    {
      if SupplyOk(State()) && fee <= MAX_SAFE_FEE {
        ApplyKeeps(State(), Op.Distribute(fee, now));
        MaxSafeFee(fee);
      }
      if totalSupply >= GAP_ENDS_AT || totalSupply <= TRANSITION_AT {
        OutsideTheGap(totalSupply, fee);
      }
      var phase := PhaseOf(totalSupply);
      var burned := Share(fee, BurnRate(phase, totalSupply));
      var toValidators := Share(fee, NodeRate(phase, totalSupply));
      var toGenesis := SatSub(SatSub(fee, burned), toValidators);
      if burned > 0 {
        var ok := Burn(burned);
        if !ok {
          return Failed(InsufficientSupply);
        }
      }
      accounts := CreditGenesis(accounts, toGenesis, now);
      return Done(Split(burned, toValidators, toGenesis));
    }

    /** Moves units from supply to burned, all or nothing. */
    method Burn(amount: nat) returns (ok: bool)
      modifies `totalSupply, `totalBurned
      ensures ok == (amount == 0 || amount <= old(totalSupply))
      ensures totalSupply + totalBurned == old(totalSupply) + old(totalBurned)
      ensures totalBurned == old(totalBurned) + (if ok then amount else 0)
    {
      if amount == 0 {
        return true;
      }
      if totalSupply < amount {
        return false;
      }
      totalSupply := totalSupply - amount;
      totalBurned := totalBurned + amount;
      return true;
    }
  }
}
