/** The cross-shard bridge: a status machine with a per-shard index and running totals. */
module Bridges {
  import opened Base

  const TIMEOUT_SECS: nat := 60
  const MAX_AMOUNT: nat := 10_000_000_000_000

  datatype Status = Pending | Locked | Relayed | Finalized | Reverting | Reverted | Expired

  datatype Bridge = Bridge(id: nat, sender: Address, recipient: Address, amount: nat, source: nat, target: nat,
                           status: Status, createdAt: nat, expiresAt: nat, hash: Hash)

  datatype Desk = Desk(bridges: map<nat, Bridge>, listed: map<nat, seq<nat>>, processed: map<Hash, Status>,
                       nextId: nat, totalBridged: nat, totalFailed: nat)

  datatype BridgeError =
    | AmountTooLarge | SameShard | NotFound | InvalidStatus(expected: Status, actual: Status) | AlreadyFinalized

  const EMPTY := Desk(map[], map[], map[], 1, 0, 0)

  predicate IsOpen(b: Bridge) {
    b.status != Finalized && b.status != Reverted
  }

  predicate IsExpired(b: Bridge, now: nat) {
    now > b.expiresAt
  }

  // ----- transitions

  function Listed(d: Desk, shard: nat): seq<nat> {
    if shard in d.listed then d.listed[shard] else []
  }

  /** The list without the ids in `gone`. */
  function Drop(list: seq<nat>, gone: set<nat>): seq<nat> {
    if list == [] then []
    else
      var rest := Drop(list[..|list| - 1], gone);
      if list[|list| - 1] in gone then rest else rest + [list[|list| - 1]]
  }

  function DropEverywhere(listed: map<nat, seq<nat>>, gone: set<nat>): map<nat, seq<nat>> {
    map s | s in listed :: Drop(listed[s], gone)
  }

  function WithStatus(d: Desk, id: nat, status: Status): map<nat, Bridge>
    requires id in d.bridges
  {
    d.bridges[id := d.bridges[id].(status := status)]
  }

  function Unlist(d: Desk, shard: nat, id: nat): map<nat, seq<nat>> {
    if shard in d.listed then d.listed[shard := Drop(d.listed[shard], {id})] else d.listed
  }

  function Initiated(d: Desk, sender: Address, recipient: Address, amount: nat, source: nat, target: nat, now: nat)
    : (Desk, Option<BridgeError>)
  {
    if amount > MAX_AMOUNT then (d, Some(AmountTooLarge))
    else if source == target then (d, Some(SameShard))
    else
      var b := Bridge(d.nextId, sender, recipient, amount, source, target, Pending, now, now + TIMEOUT_SECS, ZERO_HASH);
      (d.(bridges := d.bridges[b.id := b], listed := d.listed[source := Listed(d, source) + [b.id]],
          nextId := d.nextId + 1), None)
  }

  function LockedOne(d: Desk, id: nat): (Desk, Option<BridgeError>) {
    if id !in d.bridges then (d, Some(NotFound))
    else if d.bridges[id].status != Pending then (d, Some(InvalidStatus(Pending, d.bridges[id].status)))
    else (d.(bridges := WithStatus(d, id, Locked)), None)
  }

  function RelayedOne(d: Desk, id: nat): (Desk, Option<BridgeError>) {
    if id !in d.bridges then (d, Some(NotFound))
    else if d.bridges[id].status != Locked then (d, Some(InvalidStatus(Locked, d.bridges[id].status)))
    else
      var b := d.bridges[id];
      var moved := d.(listed := Unlist(d, b.source, id));
      (d.(bridges := WithStatus(d, id, Relayed),
          listed := moved.listed[b.target := Listed(moved, b.target) + [id]]), None)
  }

  function FinalizedOne(d: Desk, id: nat): (Desk, Option<BridgeError>) {
    if id !in d.bridges then (d, Some(NotFound))
    else if d.bridges[id].status != Relayed then (d, Some(InvalidStatus(Relayed, d.bridges[id].status)))
    else
      var b := d.bridges[id];
      (d.(bridges := WithStatus(d, id, Finalized), listed := Unlist(d, b.target, id),
          processed := d.processed[b.hash := Finalized], totalBridged := d.totalBridged + b.amount), None)
  }

  function RevertingOne(d: Desk, id: nat): (Desk, Option<BridgeError>) {
    if id !in d.bridges then (d, Some(NotFound))
    else if d.bridges[id].status == Finalized then (d, Some(AlreadyFinalized))
    else (d.(bridges := WithStatus(d, id, Reverting)), None)
  }

  function RevertedOne(d: Desk, id: nat): (Desk, Option<BridgeError>) {
    if id !in d.bridges then (d, Some(NotFound))
    else (d.(bridges := WithStatus(d, id, Reverted), totalFailed := d.totalFailed + 1,
             listed := DropEverywhere(d.listed, {id})), None)
  }

  function ExpiredIds(bridges: map<nat, Bridge>, now: nat): set<nat> {
    set id | id in bridges && IsOpen(bridges[id]) && IsExpired(bridges[id], now)
  }

  /** All of `ids` reverted and nowhere listed. */
  function Reaped(d: Desk, ids: set<nat>): Desk
    requires ids <= d.bridges.Keys
  {
    d.(bridges := map id | id in d.bridges :: if id in ids then d.bridges[id].(status := Reverted) else d.bridges[id],
       listed := DropEverywhere(d.listed, ids),
       totalFailed := d.totalFailed + |ids|)
  }

  // ----- what holds of every desk

  /** Before relay a bridge is listed under its source, after it under its target; closed ones nowhere. */
  predicate BelongsUnder(b: Bridge, shard: nat) {
    match b.status
    case Pending | Locked => shard == b.source
    case Relayed => shard == b.target
    case Reverting => shard == b.source || shard == b.target
    case _ => false
  }

  predicate On(d: Desk, id: nat, shard: nat) {
    shard in d.listed && id in d.listed[shard]
  }

  ghost predicate OnlyOn(d: Desk, id: nat, shard: nat) {
    forall s :: On(d, id, s) <==> s == shard
  }

  /** An open bridge is listed under one shard, the one it belongs under; anything else is listed nowhere. */
  ghost predicate Placed(d: Desk, id: nat) {
    if id in d.bridges && IsOpen(d.bridges[id]) then exists s :: OnlyOn(d, id, s) && BelongsUnder(d.bridges[id], s)
    else forall s :: !On(d, id, s)
  }

  ghost predicate NoRepeats(d: Desk) {
    forall s :: s in d.listed ==> Distinct(d.listed[s])
  }

  ghost predicate AllPlaced(d: Desk) {
    forall id :: Placed(d, id)
  }

  ghost function FinalizedAmounts(bridges: map<nat, Bridge>): map<nat, nat> {
    map id | id in bridges :: if bridges[id].status == Finalized then bridges[id].amount else 0
  }

  ghost function RevertedFlags(bridges: map<nat, Bridge>): map<nat, nat> {
    map id | id in bridges :: if bridges[id].status == Reverted then 1 else 0
  }

  ghost predicate TotalsOk(d: Desk) {
    d.totalBridged == Sum(FinalizedAmounts(d.bridges)) && d.totalFailed == Sum(RevertedFlags(d.bridges))
  }

  ghost predicate IdsOk(d: Desk) {
    forall id :: id in d.bridges ==>
      id < d.nextId && d.bridges[id].id == id && d.bridges[id].source != d.bridges[id].target
      && d.bridges[id].status != Expired
  }

  ghost predicate Inv(d: Desk) {
    IdsOk(d) && NoRepeats(d) && AllPlaced(d) && TotalsOk(d)
  }

  // ----- lists

  lemma {:induction false} DropContents(list: seq<nat>, gone: set<nat>)
    ensures forall id :: id in Drop(list, gone) <==> id in list && id !in gone
    ensures Distinct(list) ==> Distinct(Drop(list, gone))
  {
    if list != [] {
      var front, last := list[..|list| - 1], list[|list| - 1];
      DropContents(front, gone);
      assert list == front + [last];
      if Distinct(list) {
        assert last !in front;
        assert forall i :: 0 <= i < |Drop(front, gone)| ==> Drop(front, gone)[i] in Drop(front, gone);
      }
    }
  }

  lemma {:induction false} DropTwice(list: seq<nat>, gone: set<nat>, more: set<nat>)
    ensures Drop(Drop(list, gone), more) == Drop(list, gone + more)
  {
    if list != [] {
      var front, last := list[..|list| - 1], list[|list| - 1];
      DropTwice(front, gone, more);
      var rest := Drop(front, gone);
      assert (rest + [last])[..|rest|] == rest;
    }
  }

  // ----- totals

  function AmountIn(b: Bridge): nat {
    if b.status == Finalized then b.amount else 0
  }

  function FlagOf(status: Status): nat {
    if status == Reverted then 1 else 0
  }

  lemma StatusChangesAmounts(d: Desk, id: nat, status: Status)
    requires id in d.bridges
    ensures Sum(FinalizedAmounts(WithStatus(d, id, status)))
            == Sum(FinalizedAmounts(d.bridges)) - AmountIn(d.bridges[id]) + AmountIn(d.bridges[id].(status := status))
  {
    var amount := AmountIn(d.bridges[id].(status := status));
    assert FinalizedAmounts(WithStatus(d, id, status)) == FinalizedAmounts(d.bridges)[id := amount];
    SumUpdate(FinalizedAmounts(d.bridges), id, amount);
  }

  lemma StatusChangesFlags(d: Desk, id: nat, status: Status)
    requires id in d.bridges
    ensures Sum(RevertedFlags(WithStatus(d, id, status)))
            == Sum(RevertedFlags(d.bridges)) - FlagOf(d.bridges[id].status) + FlagOf(status)
  {
    assert RevertedFlags(WithStatus(d, id, status)) == RevertedFlags(d.bridges)[id := FlagOf(status)];
    SumUpdate(RevertedFlags(d.bridges), id, FlagOf(status));
  }

  lemma StatusChangesTotals(d: Desk, id: nat, status: Status)
    requires id in d.bridges
    ensures var bs, b := WithStatus(d, id, status), d.bridges[id];
            && Sum(FinalizedAmounts(bs))
               == Sum(FinalizedAmounts(d.bridges)) - AmountIn(b) + AmountIn(b.(status := status))
            && Sum(RevertedFlags(bs)) == Sum(RevertedFlags(d.bridges)) - FlagOf(b.status) + FlagOf(status)
  {
    StatusChangesAmounts(d, id, status);
    StatusChangesFlags(d, id, status);
  }

  // ----- every transition keeps the invariant

  /** A bridge that a transition does not touch stays where it is. */
  lemma Untouched(d: Desk, d': Desk, id: nat)
    requires Placed(d, id)
    requires id in d.bridges <==> id in d'.bridges
    requires id in d.bridges ==> d'.bridges[id] == d.bridges[id]
    requires forall s :: On(d', id, s) <==> On(d, id, s)
    ensures Placed(d', id)
  {
    if id in d.bridges && IsOpen(d.bridges[id]) {
      var s :| OnlyOn(d, id, s) && BelongsUnder(d.bridges[id], s);
      assert OnlyOn(d', id, s);
    }
  }

  /** The whole index is in order once the touched bridge is placed and all others are untouched. */
  lemma OthersUntouched(d: Desk, d': Desk, id: nat)
    requires AllPlaced(d) && Placed(d', id)
    requires forall i :: i != id ==>
               (i in d.bridges <==> i in d'.bridges) && (i in d.bridges ==> d'.bridges[i] == d.bridges[i])
    requires forall i, s :: i != id ==> (On(d', i, s) <==> On(d, i, s))
    ensures AllPlaced(d')
  {
    forall i ensures Placed(d', i) {
      if i != id {
        assert Placed(d, i);
        Untouched(d, d', i);
      }
    }
  }

  /** Where an open bridge is listed. */
  lemma HomeOf(d: Desk, id: nat) returns (s: nat)
    requires AllPlaced(d) && id in d.bridges && IsOpen(d.bridges[id])
    ensures OnlyOn(d, id, s) && BelongsUnder(d.bridges[id], s) && On(d, id, s)
  {
    assert Placed(d, id);
    s :| OnlyOn(d, id, s) && BelongsUnder(d.bridges[id], s);
  }

  lemma AppendContents(list: seq<nat>, id: nat)
    ensures forall i :: i in list + [id] <==> i in list || i == id
    ensures Distinct(list) && id !in list ==> Distinct(list + [id])
  {}

  lemma InitiatedPlaces(d: Desk, sender: Address, recipient: Address, amount: nat, source: nat, target: nat, now: nat)
    requires Inv(d) && amount <= MAX_AMOUNT && source != target
    ensures var d' := Initiated(d, sender, recipient, amount, source, target, now).0; NoRepeats(d') && AllPlaced(d')
  {
    var d', id := Initiated(d, sender, recipient, amount, source, target, now).0, d.nextId;
    assert Placed(d, id);
    AppendContents(Listed(d, source), id);
    assert id !in Listed(d, source) by {
      assert !On(d, id, source);
    }
    forall s: nat ensures On(d', id, s) <==> s == source {
      assert !On(d, id, s);
    }
    assert OnlyOn(d', id, source);
    forall i, s: nat | i != id ensures On(d', i, s) <==> On(d, i, s) {}
    OthersUntouched(d, d', id);
  }

  lemma NewBridgeTotals(bridges: map<nat, Bridge>, b: Bridge)
    requires b.id !in bridges && b.status == Pending
    ensures Sum(FinalizedAmounts(bridges[b.id := b])) == Sum(FinalizedAmounts(bridges))
    ensures Sum(RevertedFlags(bridges[b.id := b])) == Sum(RevertedFlags(bridges))
  {
    assert FinalizedAmounts(bridges[b.id := b]) == FinalizedAmounts(bridges)[b.id := 0];
    assert RevertedFlags(bridges[b.id := b]) == RevertedFlags(bridges)[b.id := 0];
    SumUpdate(FinalizedAmounts(bridges), b.id, 0);
    SumUpdate(RevertedFlags(bridges), b.id, 0);
  }

  lemma InitiatedKeeps(d: Desk, sender: Address, recipient: Address, amount: nat, source: nat, target: nat, now: nat)
    requires Inv(d)
    ensures Inv(Initiated(d, sender, recipient, amount, source, target, now).0)
  {
    if amount <= MAX_AMOUNT && source != target {
      InitiatedPlaces(d, sender, recipient, amount, source, target, now);
      NewBridgeTotals(d.bridges, Initiated(d, sender, recipient, amount, source, target, now).0.bridges[d.nextId]);
    }
  }

  /** A change of status that leaves the index alone and is allowed where the bridge is listed. */
  lemma StatusOnly(d: Desk, id: nat, status: Status)
    requires AllPlaced(d) && id in d.bridges && IsOpen(d.bridges[id])
    requires forall s :: BelongsUnder(d.bridges[id], s) ==> BelongsUnder(d.bridges[id].(status := status), s)
    ensures AllPlaced(d.(bridges := WithStatus(d, id, status)))
  {
    var d' := d.(bridges := WithStatus(d, id, status));
    var s := HomeOf(d, id);
    forall t: nat ensures On(d', id, t) <==> t == s {
      assert On(d, id, t) <==> t == s;
    }
    assert OnlyOn(d', id, s);
    assert BelongsUnder(d'.bridges[id], s);
    OthersUntouched(d, d', id);
  }

  lemma LockedKeeps(d: Desk, id: nat)
    requires Inv(d)
    ensures Inv(LockedOne(d, id).0)
  {
    if id in d.bridges && d.bridges[id].status == Pending {
      StatusChangesTotals(d, id, Locked);
      StatusOnly(d, id, Locked);
    }
  }

  lemma RelayedPlaces(d: Desk, id: nat)
    requires Inv(d) && id in d.bridges && d.bridges[id].status == Locked
    ensures var d' := RelayedOne(d, id).0; NoRepeats(d') && AllPlaced(d')
  {
    var b, d' := d.bridges[id], RelayedOne(d, id).0;
    var home := HomeOf(d, id);
    DropContents(d.listed[b.source], {id});
    assert !On(d, id, b.target);
    AppendContents(Listed(d, b.target), id);
    assert d'.listed[b.source] == Drop(d.listed[b.source], {id});
    assert d'.listed[b.target] == Listed(d, b.target) + [id];
    forall s: nat ensures On(d', id, s) <==> s == b.target {
      assert On(d, id, s) <==> s == b.source;
    }
    assert OnlyOn(d', id, b.target);
    OthersUntouched(d, d', id);
  }

  lemma RelayedKeeps(d: Desk, id: nat)
    requires Inv(d)
    ensures Inv(RelayedOne(d, id).0)
  {
    if id in d.bridges && d.bridges[id].status == Locked {
      StatusChangesTotals(d, id, Relayed);
      RelayedPlaces(d, id);
    }
  }

  lemma FinalizedPlaces(d: Desk, id: nat)
    requires Inv(d) && id in d.bridges && d.bridges[id].status == Relayed
    ensures var d' := FinalizedOne(d, id).0; NoRepeats(d') && AllPlaced(d')
  {
    var b, d' := d.bridges[id], FinalizedOne(d, id).0;
    var home := HomeOf(d, id);
    DropContents(d.listed[b.target], {id});
    forall s: nat ensures !On(d', id, s) {
      assert On(d, id, s) <==> s == b.target;
    }
    OthersUntouched(d, d', id);
  }

  lemma FinalizedKeeps(d: Desk, id: nat)
    requires Inv(d)
    ensures Inv(FinalizedOne(d, id).0)
  {
    if id in d.bridges && d.bridges[id].status == Relayed {
      StatusChangesTotals(d, id, Finalized);
      FinalizedPlaces(d, id);
    }
  }

  lemma RevertingTotals(d: Desk, id: nat)
    requires IdsOk(d) && TotalsOk(d) && id in d.bridges && d.bridges[id].status != Finalized
    ensures IdsOk(RevertingOne(d, id).0)
    ensures TotalsOk(RevertingOne(d, id).0) <==> d.bridges[id].status != Reverted
  {
    StatusChangesTotals(d, id, Reverting);
  }

  lemma RevertingPlaces(d: Desk, id: nat)
    requires IdsOk(d) && NoRepeats(d) && AllPlaced(d) && id in d.bridges
    requires d.bridges[id].status != Finalized && d.bridges[id].status != Reverted
    ensures NoRepeats(RevertingOne(d, id).0) && AllPlaced(RevertingOne(d, id).0)
  {
    StatusOnly(d, id, Reverting);
  }

  /** Marking for reversal keeps the invariant exactly when the bridge is not already reverted. */
  lemma RevertingKeeps(d: Desk, id: nat)
    requires Inv(d)
    ensures Inv(RevertingOne(d, id).0) <==> id !in d.bridges || d.bridges[id].status != Reverted
  {
    if id in d.bridges && d.bridges[id].status != Finalized {
      RevertingTotals(d, id);
      if d.bridges[id].status != Reverted {
        RevertingPlaces(d, id);
      }
    }
  }

  lemma RevertedPlaces(d: Desk, id: nat)
    requires NoRepeats(d) && AllPlaced(d) && id in d.bridges
    ensures var d' := RevertedOne(d, id).0; NoRepeats(d') && AllPlaced(d')
  {
    var d' := RevertedOne(d, id).0;
    forall s | s in d.listed
      ensures Distinct(d'.listed[s])
      ensures forall i :: i in d'.listed[s] <==> i in d.listed[s] && i != id
    {
      DropContents(d.listed[s], {id});
    }
    assert forall s :: !On(d', id, s);
    OthersUntouched(d, d', id);
  }

  lemma RevertedTotals(d: Desk, id: nat)
    requires IdsOk(d) && TotalsOk(d) && id in d.bridges
    ensures IdsOk(RevertedOne(d, id).0)
    ensures TotalsOk(RevertedOne(d, id).0)
            <==> IsOpen(d.bridges[id]) || (d.bridges[id].status == Finalized && d.bridges[id].amount == 0)
  {
    StatusChangesTotals(d, id, Reverted);
  }

  /** Marking as reverted keeps the invariant exactly for open bridges and for finalized ones of amount zero. */
  lemma RevertedKeeps(d: Desk, id: nat)
    requires Inv(d)
    ensures Inv(RevertedOne(d, id).0)
            <==> id !in d.bridges || IsOpen(d.bridges[id])
                 || (d.bridges[id].status == Finalized && d.bridges[id].amount == 0)
  {
    if id in d.bridges {
      RevertedTotals(d, id);
      RevertedPlaces(d, id);
    }
  }

  /** The reaper's two calls for one bridge, on a desk where some were reaped already. */
  lemma ReapOneMore(d: Desk, ids: set<nat>, id: nat)
    requires ids <= d.bridges.Keys && id in d.bridges && id !in ids && IsOpen(d.bridges[id])
    ensures RevertingOne(Reaped(d, ids), id).1 == None
    ensures RevertedOne(RevertingOne(Reaped(d, ids), id).0, id) == (Reaped(d, ids + {id}), None)
  {
    var mid := RevertingOne(Reaped(d, ids), id).0;
    var after, goal := RevertedOne(mid, id).0, Reaped(d, ids + {id});
    assert after.bridges == goal.bridges;
    forall s | s in d.listed ensures after.listed[s] == goal.listed[s] {
      DropTwice(d.listed[s], ids, {id});
    }
    assert after.listed == goal.listed;
  }

  lemma ReapNothing(d: Desk)
    ensures Reaped(d, {}) == d
  {
    forall s | s in d.listed ensures Drop(d.listed[s], {}) == d.listed[s] {
      DropNothing(d.listed[s]);
    }
    assert Reaped(d, {}).bridges == d.bridges && Reaped(d, {}).listed == d.listed;
  }

  lemma {:induction false} DropNothing(list: seq<nat>)
    ensures Drop(list, {}) == list
  {
    if list != [] {
      DropNothing(list[..|list| - 1]);
    }
  }

  lemma ReapStepKeeps(d: Desk, id: nat)
    requires Inv(d) && id in d.bridges && IsOpen(d.bridges[id])
    ensures Inv(RevertedOne(RevertingOne(d, id).0, id).0)
  {
    RevertingKeeps(d, id);
    RevertedKeeps(RevertingOne(d, id).0, id);
  }

  lemma TakeOne(ids: set<nat>) returns (id: nat, rest: set<nat>)
    requires ids != {}
    ensures id in ids && id !in rest && ids == rest + {id} && |rest| < |ids|
  {
    id :| id in ids;
    rest := ids - {id};
  }

  lemma ReapedNext(d: Desk, ids: set<nat>, id: nat, next: set<nat>)
    requires ids <= d.bridges.Keys && id in d.bridges && id !in ids && IsOpen(d.bridges[id]) && next == ids + {id}
    requires Inv(Reaped(d, ids))
    ensures Inv(Reaped(d, next))
  {
    ReapOneMore(d, ids, id);
    ReapStepKeeps(Reaped(d, ids), id);
  }

  lemma {:induction false} ReapedKeeps(d: Desk, ids: set<nat>)
    requires Inv(d) && ids <= d.bridges.Keys && forall id :: id in ids ==> IsOpen(d.bridges[id])
    ensures Inv(Reaped(d, ids))
    decreases |ids|
  {
    if ids == {} {
      ReapNothing(d);
    } else {
      var id, rest := TakeOne(ids);
      ReapedKeeps(d, rest);
      ReapedNext(d, rest, id, ids);
    }
  }

  // ----- runs

  datatype Op =
    | Initiate(sender: Address, recipient: Address, amount: nat, source: nat, target: nat, now: nat)
    | Lock(id: nat)
    | Relay(id: nat)
    | Finalize(id: nat)
    | Reap(now: nat)

  function Apply(d: Desk, op: Op): Desk {
    match op
    case Initiate(sender, recipient, amount, source, target, now) =>
      Initiated(d, sender, recipient, amount, source, target, now).0
    case Lock(id) => LockedOne(d, id).0
    case Relay(id) => RelayedOne(d, id).0
    case Finalize(id) => FinalizedOne(d, id).0
    case Reap(now) => Reaped(d, ExpiredIds(d.bridges, now))
  }

  function Run(d: Desk, ops: seq<Op>): Desk {
    if ops == [] then d else Apply(Run(d, ops[..|ops| - 1]), ops[|ops| - 1])
  }

  lemma ApplyKeeps(d: Desk, op: Op)
    requires Inv(d)
    ensures Inv(Apply(d, op))
  {
    match op {
      case Initiate(sender, recipient, amount, source, target, now) =>
        InitiatedKeeps(d, sender, recipient, amount, source, target, now);
      case Lock(id) => LockedKeeps(d, id);
      case Relay(id) => RelayedKeeps(d, id);
      case Finalize(id) => FinalizedKeeps(d, id);
      case Reap(now) => ReapedKeeps(d, ExpiredIds(d.bridges, now));
    }
  }

  lemma ClosedStays(d: Desk, op: Op, id: nat)
    requires IdsOk(d) && id in d.bridges && !IsOpen(d.bridges[id])
    ensures id in Apply(d, op).bridges && Apply(d, op).bridges[id] == d.bridges[id]
  {}

  lemma EmptyOk()
    ensures Inv(EMPTY)
  {
    assert FinalizedAmounts(map[]) == map[] && RevertedFlags(map[]) == map[];
  }

  /** Over every run from an empty desk the invariant holds. */
  lemma {:induction false} RunKeeps(ops: seq<Op>)
    ensures Inv(Run(EMPTY, ops))
  {
    if ops == [] {
      EmptyOk();
    } else {
      RunKeeps(ops[..|ops| - 1]);
      ApplyKeeps(Run(EMPTY, ops[..|ops| - 1]), ops[|ops| - 1]);
    }
  }

  /** Once finalized or reverted, a bridge never changes again. */
  lemma {:induction false} ClosedForGood(ops: seq<Op>, k: nat, id: nat)
    requires k <= |ops| && id in Run(EMPTY, ops[..k]).bridges && !IsOpen(Run(EMPTY, ops[..k]).bridges[id])
    ensures id in Run(EMPTY, ops).bridges && Run(EMPTY, ops).bridges[id] == Run(EMPTY, ops[..k]).bridges[id]
  {
    var n := |ops| - 1;
    if k == |ops| {
      assert ops[..k] == ops;
    } else {
      assert ops[..n][..k] == ops[..k];
      ClosedForGood(ops[..n], k, id);
      RunKeeps(ops[..n]);
      ClosedStays(Run(EMPTY, ops[..n]), ops[n], id);
    }
  }

  // ----- the manager and its reaper

  datatype Stats = Stats(total: nat, pending: nat, locked: nat, relayed: nat, finalized: nat, reverted: nat,
                         totalBridged: nat, totalFailed: nat)

  ghost function WithStatuses(bridges: map<nat, Bridge>, ids: set<nat>, statuses: set<Status>): set<nat> {
    set id | id in ids && id in bridges && bridges[id].status in statuses
  }

  class BridgeManager {
    var bridges: map<nat, Bridge>
    var pendingByShard: map<nat, seq<nat>>
    var processed: map<Hash, Status>
    var nextBridgeId: nat
    var totalBridged: nat
    var totalFailed: nat

    ghost function State(): Desk
      reads this
    {
      Desk(bridges, pendingByShard, processed, nextBridgeId, totalBridged, totalFailed)
    }

    constructor ()
      ensures State() == EMPTY && Inv(State())
    {
      bridges, pendingByShard, processed := map[], map[], map[];
      nextBridgeId, totalBridged, totalFailed := 1, 0, 0;
      new;
      EmptyOk();
    }

    method InitiateBridge(sender: Address, recipient: Address, amount: nat, source: nat, target: nat, now: nat)
      returns (e: Option<BridgeError>)
      requires Inv(State())
      modifies this
      ensures Inv(State()) && (State(), e) == Initiated(old(State()), sender, recipient, amount, source, target, now)
    {
      InitiatedKeeps(State(), sender, recipient, amount, source, target, now);
      if amount > MAX_AMOUNT {
        return Some(AmountTooLarge);
      }
      if source == target {
        return Some(SameShard);
      }
      var id := nextBridgeId;
      nextBridgeId := nextBridgeId + 1;
      var bridge := Bridge(id, sender, recipient, amount, source, target, Pending, now, now + TIMEOUT_SECS, ZERO_HASH);
      bridges := bridges[id := bridge];
      var listed := if source in pendingByShard then pendingByShard[source] else [];
      pendingByShard := pendingByShard[source := listed + [id]];
      return None;
    }

    method LockBridge(id: nat) returns (e: Option<BridgeError>)
      requires Inv(State())
      modifies `bridges
      ensures Inv(State()) && (State(), e) == LockedOne(old(State()), id)
    {
      LockedKeeps(State(), id);
      if id !in bridges {
        return Some(NotFound);
      }
      if bridges[id].status != Pending {
        return Some(InvalidStatus(Pending, bridges[id].status));
      }
      bridges := bridges[id := bridges[id].(status := Locked)];
      return None;
    }

    method Retain(shard: nat, id: nat)
      modifies `pendingByShard
      ensures pendingByShard == Unlist(old(State()), shard, id)
    {
      if shard in pendingByShard {
        var kept := Keep(pendingByShard[shard], id);
        pendingByShard := pendingByShard[shard := kept];
      }
    }

    method RelayBridge(id: nat) returns (e: Option<BridgeError>)
      requires Inv(State())
      modifies `bridges, `pendingByShard
      ensures Inv(State()) && (State(), e) == RelayedOne(old(State()), id)
    {
      RelayedKeeps(State(), id);
      if id !in bridges {
        return Some(NotFound);
      }
      var b := bridges[id];
      if b.status != Locked {
        return Some(InvalidStatus(Locked, b.status));
      }
      bridges := bridges[id := b.(status := Relayed)];
      Retain(b.source, id);
      var listed := if b.target in pendingByShard then pendingByShard[b.target] else [];
      pendingByShard := pendingByShard[b.target := listed + [id]];
      return None;
    }

    method FinalizeBridge(id: nat) returns (e: Option<BridgeError>)
      requires Inv(State())
      modifies this
      ensures Inv(State()) && (State(), e) == FinalizedOne(old(State()), id)
    {
      FinalizedKeeps(State(), id);
      if id !in bridges {
        return Some(NotFound);
      }
      var b := bridges[id];
      if b.status != Relayed {
        return Some(InvalidStatus(Relayed, b.status));
      }
      bridges := bridges[id := b.(status := Finalized)];
      totalBridged := totalBridged + b.amount;
      processed := processed[b.hash := Finalized];
      Retain(b.target, id);
      return None;
    }

    method RevertBridge(id: nat) returns (e: Option<BridgeError>)
      modifies `bridges
      ensures (State(), e) == RevertingOne(old(State()), id)
    {
      if id !in bridges {
        return Some(NotFound);
      }
      if bridges[id].status == Finalized {
        return Some(AlreadyFinalized);
      }
      bridges := bridges[id := bridges[id].(status := Reverting)];
      return None;
    }

    method MarkReverted(id: nat) returns (e: Option<BridgeError>)
      modifies `bridges, `pendingByShard, `totalFailed
      ensures (State(), e) == RevertedOne(old(State()), id)
    {
      if id !in bridges {
        return Some(NotFound);
      }
      bridges := bridges[id := bridges[id].(status := Reverted)];
      totalFailed := totalFailed + 1;
      pendingByShard := KeepEverywhere(pendingByShard, id);
      return None;
    }

    /** One pass of the reaper: exactly the expired open bridges are reverted, each counted once. */
    method ReapPass(now: nat)
      requires Inv(State())
      modifies `bridges, `pendingByShard, `totalFailed
      ensures Inv(State()) && State() == Reaped(old(State()), ExpiredIds(old(bridges), now))
    {
      ghost var start := State();
      var ids := ExpiredIds(bridges, now);
      var expired := Listing(ids);
      ReapedKeeps(start, ids);
      ReapNothing(start);
      assert Elements(expired[..0]) == {};
      for k := 0 to |expired|
        invariant Elements(expired[..k]) <= ids && State() == Reaped(start, Elements(expired[..k]))
      {
        var id := expired[k];
        NextElement(expired, k);
        ReapOneMore(start, Elements(expired[..k]), id);
        var e := RevertBridge(id);
        if e == None {
          e := MarkReverted(id);
        }
      }
      assert expired[..|expired|] == expired;
    }

    /** The counters of the five shown groups add up to the number of bridges. */
    method GetStats() returns (stats: Stats)
      requires Inv(State())
      ensures stats.pending == |WithStatuses(bridges, bridges.Keys, {Pending})|
      ensures stats.locked == |WithStatuses(bridges, bridges.Keys, {Locked})|
      ensures stats.relayed == |WithStatuses(bridges, bridges.Keys, {Relayed})|
      ensures stats.finalized == |WithStatuses(bridges, bridges.Keys, {Finalized})|
      ensures stats.reverted == |WithStatuses(bridges, bridges.Keys, {Reverting, Reverted})|
      ensures stats.total == |bridges|
      ensures stats.pending + stats.locked + stats.relayed + stats.finalized + stats.reverted == stats.total
      ensures stats.totalBridged == Sum(FinalizedAmounts(bridges)) && stats.totalFailed == Sum(RevertedFlags(bridges))
    {
      var ids := Listing(bridges.Keys);
      var pending, locked, relayed, finalized, reverted := 0, 0, 0, 0, 0;
      for k := 0 to |ids|
        invariant Counted(bridges, Elements(ids[..k]), pending, locked, relayed, finalized, reverted)
      {
        NextElement(ids, k);
        CountOneMore(bridges, Elements(ids[..k]), ids[k], pending, locked, relayed, finalized, reverted);
        match bridges[ids[k]].status {
          case Pending => pending := pending + 1;
          case Locked => locked := locked + 1;
          case Relayed => relayed := relayed + 1;
          case Finalized => finalized := finalized + 1;
          case Reverting => reverted := reverted + 1;
          case Reverted => reverted := reverted + 1;
          case Expired =>
        }
      }
      assert ids[..|ids|] == ids;
      GroupsPartition(bridges);
      stats := Stats(|bridges|, pending, locked, relayed, finalized, reverted, totalBridged, totalFailed);
    }
  }

  ghost predicate Counted(bridges: map<nat, Bridge>, ids: set<nat>, pending: nat, locked: nat, relayed: nat,
                          finalized: nat, reverted: nat)
  {
    pending == |WithStatuses(bridges, ids, {Pending})| && locked == |WithStatuses(bridges, ids, {Locked})| &&
    relayed == |WithStatuses(bridges, ids, {Relayed})| && finalized == |WithStatuses(bridges, ids, {Finalized})| &&
    reverted == |WithStatuses(bridges, ids, {Reverting, Reverted})|
  }

  lemma CountOneMore(bridges: map<nat, Bridge>, ids: set<nat>, id: nat, pending: nat, locked: nat, relayed: nat,
                     finalized: nat, reverted: nat)
    requires id !in ids && id in bridges && Counted(bridges, ids, pending, locked, relayed, finalized, reverted)
    ensures var s := bridges[id].status;
            Counted(bridges, ids + {id}, if s == Pending then pending + 1 else pending,
                    if s == Locked then locked + 1 else locked,
                    if s == Relayed then relayed + 1 else relayed, if s == Finalized then finalized + 1 else finalized,
                    if s == Reverting || s == Reverted then reverted + 1 else reverted)
  {
    OneMoreId(bridges, ids, id, {Pending});
    OneMoreId(bridges, ids, id, {Locked});
    OneMoreId(bridges, ids, id, {Relayed});
    OneMoreId(bridges, ids, id, {Finalized});
    OneMoreId(bridges, ids, id, {Reverting, Reverted});
  }

  lemma OneMoreId(bridges: map<nat, Bridge>, ids: set<nat>, id: nat, statuses: set<Status>)
    requires id !in ids && id in bridges
    ensures |WithStatuses(bridges, ids + {id}, statuses)|
            == |WithStatuses(bridges, ids, statuses)| + (if bridges[id].status in statuses then 1 else 0)
  {
    assert WithStatuses(bridges, ids + {id}, statuses)
        == WithStatuses(bridges, ids, statuses) + (if bridges[id].status in statuses then {id} else {});
  }

  lemma GroupsPartition(bridges: map<nat, Bridge>)
    requires forall id :: id in bridges ==> bridges[id].status != Expired
    ensures |WithStatuses(bridges, bridges.Keys, {Pending})| + |WithStatuses(bridges, bridges.Keys, {Locked})|
            + |WithStatuses(bridges, bridges.Keys, {Relayed})| + |WithStatuses(bridges, bridges.Keys, {Finalized})|
            + |WithStatuses(bridges, bridges.Keys, {Reverting, Reverted})| == |bridges|
  {
    assert {Pending} + {Locked} == {Pending, Locked};
    assert {Pending, Locked} + {Relayed} == {Pending, Locked, Relayed};
    assert {Pending, Locked, Relayed} + {Finalized} == {Pending, Locked, Relayed, Finalized};
    var all := {Pending, Locked, Relayed, Finalized, Reverting, Reverted};
    assert {Pending, Locked, Relayed, Finalized} + {Reverting, Reverted} == all;
    TwoGroups(bridges, {Pending}, {Locked});
    TwoGroups(bridges, {Pending, Locked}, {Relayed});
    TwoGroups(bridges, {Pending, Locked, Relayed}, {Finalized});
    TwoGroups(bridges, {Pending, Locked, Relayed, Finalized}, {Reverting, Reverted});
    assert WithStatuses(bridges, bridges.Keys, all) == bridges.Keys;
    assert |bridges| == |bridges.Keys|;
  }

  lemma TwoGroups(bridges: map<nat, Bridge>, s: set<Status>, t: set<Status>)
    requires s !! t
    ensures |WithStatuses(bridges, bridges.Keys, s + t)|
            == |WithStatuses(bridges, bridges.Keys, s)| + |WithStatuses(bridges, bridges.Keys, t)|
  {
    var a, b := WithStatuses(bridges, bridges.Keys, s), WithStatuses(bridges, bridges.Keys, t);
    assert WithStatuses(bridges, bridges.Keys, s + t) == a + b;
    assert a !! b;
  }

  method Keep(list: seq<nat>, id: nat) returns (kept: seq<nat>)
    ensures kept == Drop(list, {id})
  {
    kept := [];
    for i := 0 to |list|
      invariant kept == Drop(list[..i], {id})
    {
      assert list[..i + 1][..i] == list[..i];
      if list[i] != id {
        kept := kept + [list[i]];
      }
    }
    assert list[..|list|] == list;
  }

  method KeepEverywhere(listed: map<nat, seq<nat>>, id: nat) returns (after: map<nat, seq<nat>>)
    ensures after == DropEverywhere(listed, {id})
  {
    var shards := Listing(listed.Keys);
    after := listed;
    for k := 0 to |shards|
      invariant after.Keys == listed.Keys
      invariant forall s :: s in listed ==>
                  after[s] == if s in Elements(shards[..k]) then Drop(listed[s], {id}) else listed[s]
    {
      NextElement(shards, k);
      var kept := Keep(after[shards[k]], id);
      after := after[shards[k] := kept];
    }
    assert shards[..|shards|] == shards;
  }
}
