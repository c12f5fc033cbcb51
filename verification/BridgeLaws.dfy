/** The life of a bridge over whole runs: which calls brought it where it is, and when it is given up. */
module BridgeLaws {
  import opened Base
  import opened Bridges

  // ----- one call

  /** A bridge is opened unless it carries more than the limit or stays on its shard. */
  lemma OpenAnswers(d: Desk, sender: Address, recipient: Address, amount: nat, source: nat, target: nat, now: nat)
    ensures var (after, answer) := Initiated(d, sender, recipient, amount, source, target, now);
            && (answer == Some(AmountTooLarge) <==> amount > 10_000_000_000_000)
            && (answer == Some(SameShard) <==> amount <= 10_000_000_000_000 && source == target)
            && (answer == None <==> amount <= 10_000_000_000_000 && source != target)
            && (answer != None ==> after == d)
            && (answer == None ==> after.nextId == d.nextId + 1 && d.nextId in after.bridges)
  {}

  /** The status each call asks for. */
  function Asked(op: Op): Status
    requires op.Lock? || op.Relay? || op.Finalize?
  {
    if op.Lock? then Pending else if op.Relay? then Locked else Relayed
  }

  function Answer(d: Desk, op: Op): Option<BridgeError>
    requires op.Lock? || op.Relay? || op.Finalize?
  {
    match op
    case Lock(id) => LockedOne(d, id).1
    case Relay(id) => RelayedOne(d, id).1
    case Finalize(id) => FinalizedOne(d, id).1
  }

  /** Lock, relay and finalize answer by the status they find; a refused call changes nothing. */
  lemma MoveAnswers(d: Desk, op: Op)
    requires op.Lock? || op.Relay? || op.Finalize?
    ensures Answer(d, op) == if op.id !in d.bridges then Some(NotFound)
                             else if d.bridges[op.id].status == Asked(op) then None
                             else Some(InvalidStatus(Asked(op), d.bridges[op.id].status))
    ensures Answer(d, op) != None ==> Apply(d, op) == d
  {}

  /** Asking for a revert is refused only for unknown and finalized bridges. */
  lemma RevertAnswers(d: Desk, id: nat)
    ensures RevertingOne(d, id).1 == if id !in d.bridges then Some(NotFound)
                                     else if d.bridges[id].status == Finalized then Some(AlreadyFinalized)
                                     else None
    ensures RevertedOne(d, id).1 == if id in d.bridges then None else Some(NotFound)
  {}

  // ----- a bridge's history

  /** The i-th operation opened this bridge; it is due 60 seconds later. */
  ghost predicate Opened(ops: seq<Op>, i: nat, b: Bridge) {
    && i < |ops| && ops[i].Initiate? && ops[i].amount <= 10_000_000_000_000 && ops[i].source != ops[i].target
    && Run(EMPTY, ops[..i]).nextId == b.id
    && b.sender == ops[i].sender && b.recipient == ops[i].recipient && b.amount == ops[i].amount
    && b.source == ops[i].source && b.target == ops[i].target
    && b.createdAt == ops[i].now && b.expiresAt == ops[i].now + 60
  }

  lemma OpenedEarlier(ops: seq<Op>, n: nat, i: nat, b: Bridge, b': Bridge)
    requires n <= |ops| && Opened(ops[..n], i, b) && b' == b.(status := b'.status)
    ensures Opened(ops, i, b')
  {
    assert ops[..n][..i] == ops[..i];
  }

  /** What one operation does to one bridge. */
  lemma StepOfBridge(d: Desk, op: Op, id: nat)
    requires IdsOk(d) && id in Apply(d, op).bridges
    ensures var b := Apply(d, op).bridges[id];
            if id !in d.bridges then op.Initiate? && id == d.nextId && b.status == Pending
            else var was := d.bridges[id];
                 && b == was.(status := b.status)
                 && (b.status == was.status
                     || (op == Lock(id) && was.status == Pending && b.status == Locked)
                     || (op == Relay(id) && was.status == Locked && b.status == Relayed)
                     || (op == Finalize(id) && was.status == Relayed && b.status == Finalized)
                     || (op.Reap? && op.now > was.expiresAt && b.status == Reverted))
  {}

  lemma OpenedNow(ops: seq<Op>, n: nat, id: nat)
    requires n == |ops| - 1 && IdsOk(Run(EMPTY, ops[..n]))
    requires id in Run(EMPTY, ops).bridges && id !in Run(EMPTY, ops[..n]).bridges
    ensures Opened(ops, n, Run(EMPTY, ops).bridges[id])
  {
    StepOfBridge(Run(EMPTY, ops[..n]), ops[n], id);
  }

  /** Over every run: a bridge is as it was opened, and its status tells which calls came, in which order. A finalized
      one was locked, then relayed, then finalized; a reverted one met a pass more than 60 seconds after its opening. */
  lemma {:induction false} History(ops: seq<Op>, id: nat) returns (i: nat, j: nat, k: nat, l: nat)
    requires id in Run(EMPTY, ops).bridges
    ensures var b := Run(EMPTY, ops).bridges[id];
            && Opened(ops, i, b)
            && b.status in {Pending, Locked, Relayed, Finalized, Reverted}
            && (b.status in {Locked, Relayed, Finalized} ==> i < j < |ops| && ops[j] == Lock(id))
            && (b.status in {Relayed, Finalized} ==> j < k < |ops| && ops[k] == Relay(id))
            && (b.status == Finalized ==> k < l < |ops| && ops[l] == Finalize(id))
            && (b.status == Reverted ==> i < l < |ops| && ops[l].Reap? && ops[l].now > b.createdAt + 60)
  {
    var n := |ops| - 1;
    var d, b := Run(EMPTY, ops[..n]), Run(EMPTY, ops).bridges[id];
    RunKeeps(ops[..n]);
    StepOfBridge(d, ops[n], id);
    if id in d.bridges {
      i, j, k, l := History(ops[..n], id);
      OpenedEarlier(ops, n, i, d.bridges[id], b);
      if b.status != d.bridges[id].status {
        j := if b.status == Locked then n else j;
        k := if b.status == Relayed then n else k;
        l := n;
      }
    } else {
      OpenedNow(ops, n, id);
      i, j, k, l := n, 0, 0, 0;
    }
  }

  /** One more pass at `now` reverts exactly the bridges neither finalized nor reverted that were opened more than 60
      seconds before, and leaves the others as they are. */
  lemma PassReverts(ops: seq<Op>, now: nat, id: nat)
    requires id in Run(EMPTY, ops).bridges
    ensures var before, after := Run(EMPTY, ops).bridges[id], Run(EMPTY, ops + [Reap(now)]).bridges;
            var due := before.status !in {Finalized, Reverted} && now > before.createdAt + 60;
            id in after && after[id] == if due then before.(status := Reverted) else before
  {
    var i, j, k, l := History(ops, id);
    assert (ops + [Reap(now)])[..|ops|] == ops;
  }

  /** And it counts each of them once. */
  lemma PassCounts(ops: seq<Op>, now: nat)
    ensures var before := Run(EMPTY, ops).bridges;
            Run(EMPTY, ops + [Reap(now)]).totalFailed == Run(EMPTY, ops).totalFailed
            + |set id | id in before && before[id].status !in {Finalized, Reverted} && now > before[id].createdAt + 60|
  {
    var d := Run(EMPTY, ops);
    assert (ops + [Reap(now)])[..|ops|] == ops;
    forall id | id in d.bridges
      ensures d.bridges[id].expiresAt == d.bridges[id].createdAt + 60
    {
      var i, j, k, l := History(ops, id);
    }
    assert ExpiredIds(d.bridges, now)
        == set id | id in d.bridges && d.bridges[id].status !in {Finalized, Reverted}
                    && now > d.bridges[id].createdAt + 60;
  }
}
