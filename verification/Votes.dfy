/** Vote counting: the receiving side of the voting protocol, and what several receivers agree on. */
module Votes {
  import opened Base

  datatype VoteType = Prevote | Precommit

  datatype Vote = Vote(height: nat, round: nat, blockHash: Hash, voter: nat, voteType: VoteType,
                       signature: seq<Byte>, timestamp: nat)

  datatype VoteKey = VoteKey(height: nat, round: nat, voteType: VoteType, voter: nat)

  function KeyOf(v: Vote): VoteKey {
    VoteKey(v.height, v.round, v.voteType, v.voter)
  }

  type Table = map<Hash, seq<Vote>>

  /** The votes of the one round a height currently remembers. */
  datatype RoundVotes = RoundVotes(round: nat, prevotes: Table, precommits: Table) {
    function Of(t: VoteType): Table {
      if t == Prevote then prevotes else precommits
    }
    function With(t: VoteType, table: Table): RoundVotes {
      if t == Prevote then this.(prevotes := table) else this.(precommits := table)
    }
  }

  datatype VoteError = ValidatorNotFound | ValidatorInactive | InvalidSignature | InvalidTimestamp | DoubleVoting

  datatype VoteResult = Added(quorumReached: bool) | AlreadySeen | Rejected(error: VoteError)

  datatype Validator = Validator(active: bool, votingPower: nat)

  /** What a call sees of its surroundings: the validator table, the clock and the two signature schemes. */
  datatype Env = Env(validators: map<nat, Validator>, activeCount: nat, now: nat,
                     ed25519: Vote -> bool, dilithium5: Vote -> bool)

  datatype VoteState = VoteState(votes: map<nat, RoundVotes>, seen: set<VoteKey>)

  const EMPTY := VoteState(map[], {})

  // ----- quorum arithmetic

  function QuorumSize(n: nat): nat {
    n * 2 / 3 + 1
  }

  /** Two quorums among n overlap in at least 2q - n validators, and that is more than a third of n. */
  lemma QuorumOverlap(n: nat)
    ensures n < 2 * QuorumSize(n)
    ensures forall f: nat | 3 * f < n :: f < 2 * QuorumSize(n) - n
  {}

  // ----- one vote

  function SignatureOk(env: Env, v: Vote): bool {
    if |v.signature| == 64 then env.ed25519(v)
    else if |v.signature| == 4595 then env.dilithium5(v)
    else false
  }

  function Validate(env: Env, v: Vote): Option<VoteError> {
    if v.voter !in env.validators then Some(ValidatorNotFound)
    else if !env.validators[v.voter].active then Some(ValidatorInactive)
    else if !SignatureOk(env, v) then Some(InvalidSignature)
    else if v.timestamp > env.now + 10 || v.timestamp + 60 < env.now then Some(InvalidTimestamp)
    else None
  }

  /** A 64-byte signature the first scheme accepts, or a 4595-byte one the second does. */
  predicate Signed(env: Env, v: Vote) {
    (|v.signature| == 64 && env.ed25519(v)) || (|v.signature| == 4595 && env.dilithium5(v))
  }

  /** What the receiver asks of a vote: a registered, active and signing voter, and a recent timestamp. */
  predicate Genuine(env: Env, v: Vote) {
    && v.voter in env.validators && env.validators[v.voter].active
    && Signed(env, v)
    && env.now <= v.timestamp + 60 && v.timestamp <= env.now + 10
  }

  function ForBlock(table: Table, b: Hash): seq<Vote> {
    if b in table then table[b] else []
  }

  predicate HasVoter(votes: seq<Vote>, voter: nat) {
    exists i :: 0 <= i < |votes| && votes[i].voter == voter
  }

  function Insert(table: Table, v: Vote): Table {
    var list := ForBlock(table, v.blockHash);
    table[v.blockHash := if HasVoter(list, v.voter) then list else list + [v]]
  }

  function Current(s: VoteState, v: Vote): RoundVotes {
    if v.height in s.votes && s.votes[v.height].round == v.round then s.votes[v.height]
    else RoundVotes(v.round, map[], map[])
  }

  function Store(s: VoteState, v: Vote): VoteState {
    var rv := Current(s, v);
    s.(votes := s.votes[v.height := rv.With(v.voteType, Insert(rv.Of(v.voteType), v))])
  }

  function Power(env: Env, votes: seq<Vote>): nat {
    if votes == [] then 0
    else
      var last := votes[|votes| - 1].voter;
      Power(env, votes[..|votes| - 1]) + (if last in env.validators then env.validators[last].votingPower else 0)
  }

  /** The stored votes for one block, at one height, round and kind. */
  function Backing(s: VoteState, h: nat, r: nat, b: Hash, t: VoteType): seq<Vote> {
    if h in s.votes && s.votes[h].round == r then ForBlock(s.votes[h].Of(t), b) else []
  }

  function VoteCount(s: VoteState, h: nat, r: nat, b: Hash, t: VoteType): nat {
    |Backing(s, h, r, b, t)|
  }

  function PowerQuorum(s: VoteState, env: Env, v: Vote): bool {
    Power(env, Backing(s, v.height, v.round, v.blockHash, v.voteType)) >= QuorumSize(env.activeCount)
  }

  predicate VotedElsewhere(table: Table, v: Vote) {
    exists b :: b in table && b != v.blockHash && HasVoter(table[b], v.voter)
  }

  predicate DoubleVoted(s: VoteState, v: Vote) {
    v.height in s.votes && s.votes[v.height].round == v.round &&
    VotedElsewhere(s.votes[v.height].Of(v.voteType), v)
  }

  function Received(s: VoteState, env: Env, v: Vote): (VoteState, VoteResult) {
    match Validate(env, v)
    case Some(e) => (s, Rejected(e))
    case None =>
      if KeyOf(v) in s.seen then (s, AlreadySeen)
      else
        var next := Store(s.(seen := s.seen + {KeyOf(v)}), v);
        if DoubleVoted(next, v) then (next, Rejected(DoubleVoting))
        else (next, Added(!HasVoter(ForBlock(Current(s, v).Of(v.voteType), v.blockHash), v.voter)
                          && PowerQuorum(next, env, v)))
  }

  function Cleared(s: VoteState, h: nat): VoteState {
    s.(votes := s.votes - {h})
  }

  /** The heights above h that still have votes. */
  function Above(votes: map<nat, RoundVotes>, h: nat): set<nat> {
    set x | x in votes && h < x
  }

  /** Keeps the `keep` greatest heights. */
  function Pruned(s: VoteState, keep: nat): VoteState {
    s.(votes := map h | h in s.votes && |Above(s.votes, h)| < keep :: s.votes[h])
  }

  // ----- one voter stands under at most one block

  ghost predicate EntriesMatch(h: nat, r: nat, t: VoteType, table: Table, seen: set<VoteKey>) {
    forall b, i :: b in table && 0 <= i < |table[b]| ==>
      KeyOf(table[b][i]) == VoteKey(h, r, t, table[b][i].voter) && table[b][i].blockHash == b &&
      KeyOf(table[b][i]) in seen
  }

  ghost predicate VotersDistinct(table: Table) {
    forall b, i, c, j :: b in table && c in table && 0 <= i < |table[b]| && 0 <= j < |table[c]| ==>
      table[b][i].voter == table[c][j].voter ==> b == c && i == j
  }

  ghost predicate TableOk(h: nat, r: nat, t: VoteType, table: Table, seen: set<VoteKey>) {
    EntriesMatch(h, r, t, table, seen) && VotersDistinct(table)
  }

  /** Every stored vote sits where its own fields say, its key has been seen, and no voter stands twice in a table. */
  ghost predicate Inv(s: VoteState) {
    forall h, t :: h in s.votes ==> TableOk(h, s.votes[h].round, t, s.votes[h].Of(t), s.seen)
  }

  lemma FreshVoter(h: nat, r: nat, t: VoteType, table: Table, seen: set<VoteKey>, v: Vote)
    requires EntriesMatch(h, r, t, table, seen)
    requires KeyOf(v) == VoteKey(h, r, t, v.voter) && KeyOf(v) !in seen
    ensures forall b, i :: b in table && 0 <= i < |table[b]| ==> table[b][i].voter != v.voter
    ensures Insert(table, v) == table[v.blockHash := ForBlock(table, v.blockHash) + [v]]
  {}

  lemma EntriesMatchNext(h: nat, r: nat, t: VoteType, table: Table, seen: set<VoteKey>, v: Vote)
    requires EntriesMatch(h, r, t, table, seen) && KeyOf(v) == VoteKey(h, r, t, v.voter)
    ensures EntriesMatch(h, r, t, table[v.blockHash := ForBlock(table, v.blockHash) + [v]], seen + {KeyOf(v)})
  {}

  lemma VotersDistinctNext(table: Table, v: Vote)
    requires VotersDistinct(table)
    requires forall b, i :: b in table && 0 <= i < |table[b]| ==> table[b][i].voter != v.voter
    ensures VotersDistinct(table[v.blockHash := ForBlock(table, v.blockHash) + [v]])
  {}

  /** A vote whose key is new joins its table without being taken for a duplicate. */
  lemma InsertKeeps(h: nat, r: nat, t: VoteType, table: Table, seen: set<VoteKey>, v: Vote)
    requires TableOk(h, r, t, table, seen)
    requires KeyOf(v) == VoteKey(h, r, t, v.voter) && KeyOf(v) !in seen
    ensures !HasVoter(ForBlock(table, v.blockHash), v.voter)
    ensures !VotedElsewhere(Insert(table, v), v)
    ensures TableOk(h, r, t, Insert(table, v), seen + {KeyOf(v)})
  {
    FreshVoter(h, r, t, table, seen, v);
    EntriesMatchNext(h, r, t, table, seen, v);
    VotersDistinctNext(table, v);
  }

  lemma StoreKeeps(s: VoteState, v: Vote)
    requires Inv(s) && KeyOf(v) !in s.seen
    ensures Inv(Store(s.(seen := s.seen + {KeyOf(v)}), v))
    ensures !DoubleVoted(Store(s.(seen := s.seen + {KeyOf(v)}), v), v)
    ensures !HasVoter(ForBlock(Current(s, v).Of(v.voteType), v.blockHash), v.voter)
  {
    var s1 := s.(seen := s.seen + {KeyOf(v)});
    var rv := Current(s, v);
    assert rv == Current(s1, v);
    forall t ensures TableOk(v.height, v.round, t, rv.Of(t), s.seen) {}
    InsertKeeps(v.height, v.round, v.voteType, rv.Of(v.voteType), s.seen, v);
    var s2 := Store(s1, v);
    forall h, t | h in s2.votes ensures TableOk(h, s2.votes[h].round, t, s2.votes[h].Of(t), s2.seen) {
      if h != v.height {
        assert TableOk(h, s.votes[h].round, t, s.votes[h].Of(t), s.seen);
      } else if t != v.voteType {
        assert s2.votes[h].Of(t) == rv.Of(t);
      }
    }
  }

  /** A genuine vote with a new key is stored and never reported as double voting; all others change nothing. */
  lemma ReceivedKeeps(s: VoteState, env: Env, v: Vote)
    requires Inv(s)
    ensures Inv(Received(s, env, v).0)
    ensures Received(s, env, v).1 != Rejected(DoubleVoting)
    ensures Received(s, env, v).1.Added? <==> Genuine(env, v) && KeyOf(v) !in s.seen
    ensures !Received(s, env, v).1.Added? ==> Received(s, env, v).0 == s
    ensures Received(s, env, v).1.Added? ==>
              var next := Received(s, env, v).0;
              next.seen == s.seen + {KeyOf(v)} &&
              Backing(next, v.height, v.round, v.blockHash, v.voteType)
              == Backing(s, v.height, v.round, v.blockHash, v.voteType) + [v]
  {
    if Validate(env, v) == None && KeyOf(v) !in s.seen {
      StoreKeeps(s, v);
    }
  }

  /** Forgetting whole heights, as clearing and pruning do, keeps the invariant. */
  lemma ForgettingKeeps(s: VoteState, h: nat, keep: nat)
    requires Inv(s)
    ensures Inv(Cleared(s, h)) && Inv(Pruned(s, keep))
  {}

  /** The quorum flag compares voting power with a head count. With one unit of power per voter it is the count
      quorum. */
  lemma {:induction false} UnitPowerIsCount(env: Env, votes: seq<Vote>)
    requires forall i :: 0 <= i < |votes| ==>
               votes[i].voter in env.validators && env.validators[votes[i].voter].votingPower == 1
    ensures Power(env, votes) == |votes|
  {
    if votes != [] {
      UnitPowerIsCount(env, votes[..|votes| - 1]);
    }
  }

  // ----- runs

  datatype Op = Add(env: Env, vote: Vote) | Clear(height: nat) | PruneOld(keep: nat)

  function Apply(s: VoteState, op: Op): VoteState {
    match op
    case Add(env, v) => Received(s, env, v).0
    case Clear(h) => Cleared(s, h)
    case PruneOld(keep) => Pruned(s, keep)
  }

  function Run(ops: seq<Op>): VoteState {
    if ops == [] then EMPTY else Apply(Run(ops[..|ops| - 1]), ops[|ops| - 1])
  }

  lemma {:induction false} RunKeeps(ops: seq<Op>)
    ensures Inv(Run(ops))
  {
    if ops != [] {
      var s, op := Run(ops[..|ops| - 1]), ops[|ops| - 1];
      RunKeeps(ops[..|ops| - 1]);
      if op.Add? {
        ReceivedKeeps(s, op.env, op.vote);
      }
    }
  }

  /** What has been seen stays seen, through clearing and pruning. */
  lemma {:induction false} SeenStays(ops: seq<Op>, k: nat)
    requires k < |ops|
    requires ops[k].Add? && Genuine(ops[k].env, ops[k].vote)
    ensures KeyOf(ops[k].vote) in Run(ops).seen
  {
    var n := |ops| - 1;
    if k == n {
      RunKeeps(ops[..n]);
      ReceivedKeeps(Run(ops[..n]), ops[n].env, ops[n].vote);
    } else {
      SeenStays(ops[..n], k);
      RunKeeps(ops[..n]);
      if ops[n].Add? {
        ReceivedKeeps(Run(ops[..n]), ops[n].env, ops[n].vote);
      }
    }
  }

  /** After a genuine vote, any later genuine vote of that voter for the same height, round and kind is answered
      AlreadySeen and changes nothing, whatever block it names and whatever was cleared in between. */
  lemma SecondVoteIsAlreadySeen(ops: seq<Op>, k: nat, env: Env, v: Vote)
    requires k < |ops| && ops[k].Add? && Genuine(ops[k].env, ops[k].vote)
    requires KeyOf(v) == KeyOf(ops[k].vote) && Genuine(env, v)
    ensures Received(Run(ops), env, v) == (Run(ops), AlreadySeen)
  {
    SeenStays(ops, k);
  }

  // ----- agreement between receivers

  /** The votes delivered with a signature that is accepted where they arrive; any others may be delivered too. */
  ghost function Cast(ops: seq<Op>): set<Vote> {
    set k | 0 <= k < |ops| && ops[k].Add? && Signed(ops[k].env, ops[k].vote) :: ops[k].vote
  }

  /** The receiver never takes anyone outside `members` for active. */
  ghost predicate Roster(ops: seq<Op>, members: set<nat>) {
    forall k, id :: 0 <= k < |ops| && ops[k].Add? && id in ops[k].env.validators && ops[k].env.validators[id].active
      ==> id in members
  }

  /** The voters in `honest` sign for one block per height, round and kind. */
  ghost predicate OneBlockEach(cast: set<Vote>, honest: set<nat>) {
    forall v, w :: v in cast && w in cast && v.voter in honest && KeyOf(v) == KeyOf(w) ==> v.blockHash == w.blockHash
  }

  /** The genuine votes delivered. */
  ghost function Admissible(ops: seq<Op>): set<Vote> {
    set k | 0 <= k < |ops| && ops[k].Add? && Genuine(ops[k].env, ops[k].vote) :: ops[k].vote
  }

  ghost predicate AllStored(s: VoteState, sent: set<Vote>) {
    forall h, t, b, i :: h in s.votes && b in s.votes[h].Of(t) && 0 <= i < |s.votes[h].Of(t)[b]| ==>
      s.votes[h].Of(t)[b][i] in sent
  }

  lemma StoreStaysSent(s: VoteState, v: Vote, sent: set<Vote>)
    requires AllStored(s, sent) && v in sent
    ensures AllStored(Store(s, v), sent)
  {
    var rv := Current(s, v);
    var s2 := Store(s, v);
    forall h, t, b, i | h in s2.votes && b in s2.votes[h].Of(t) && 0 <= i < |s2.votes[h].Of(t)[b]|
      ensures s2.votes[h].Of(t)[b][i] in sent
    {
      if h == v.height && t == v.voteType && b == v.blockHash {
        var list := ForBlock(rv.Of(t), b);
        assert i < |list| ==> s2.votes[h].Of(t)[b][i] == list[i];
      } else if h == v.height {
        assert b in rv.Of(t) && s2.votes[h].Of(t)[b] == rv.Of(t)[b];
      } else {
        assert s2.votes[h] == s.votes[h];
      }
    }
  }

  lemma AdmissibleGrows(ops: seq<Op>, n: nat)
    requires n == |ops| - 1
    ensures Admissible(ops[..n]) <= Admissible(ops)
    ensures ops[n].Add? && Genuine(ops[n].env, ops[n].vote) ==> ops[n].vote in Admissible(ops)
  {
    forall v | v in Admissible(ops[..n])
      ensures v in Admissible(ops)
    {
      var k :| 0 <= k < n && ops[..n][k].Add? && Genuine(ops[..n][k].env, ops[..n][k].vote) && ops[..n][k].vote == v;
      assert ops[..n][k] == ops[k];
    }
  }

  /** Over every run, each stored vote arrived in surroundings where it was genuine. */
  lemma {:induction false} StoredWasGenuine(ops: seq<Op>)
    ensures AllStored(Run(ops), Admissible(ops))
  {
    if ops != [] {
      var n := |ops| - 1;
      var s, op, sent := Run(ops[..n]), ops[n], Admissible(ops);
      StoredWasGenuine(ops[..n]);
      AdmissibleGrows(ops, n);
      assert AllStored(s, sent);
      if op.Add? && Genuine(op.env, op.vote) && KeyOf(op.vote) !in s.seen {
        StoreStaysSent(s.(seen := s.seen + {KeyOf(op.vote)}), op.vote, sent);
      }
    }
  }

  ghost function Voters(votes: seq<Vote>): set<nat> {
    set i | 0 <= i < |votes| :: votes[i].voter
  }

  lemma {:induction false} DistinctVoters(votes: seq<Vote>)
    requires forall i, j :: 0 <= i < j < |votes| ==> votes[i].voter != votes[j].voter
    ensures |Voters(votes)| == |votes|
  {
    if votes != [] {
      var n := |votes| - 1;
      DistinctVoters(votes[..n]);
      assert Voters(votes) == Voters(votes[..n]) + {votes[n].voter};
    }
  }

  lemma AdmissibleIsCast(ops: seq<Op>, members: set<nat>, v: Vote)
    requires Roster(ops, members) && v in Admissible(ops)
    ensures v in Cast(ops) && v.voter in members
  {}

  /** The backers of a block at one receiver: members, as many as the count, each with a signed vote for it. */
  lemma Backers(ops: seq<Op>, members: set<nat>, h: nat, r: nat, b: Hash, t: VoteType)
    returns (who: set<nat>)
    requires Roster(ops, members)
    ensures who <= members && |who| == VoteCount(Run(ops), h, r, b, t)
    ensures forall id :: id in who ==>
              exists v :: v in Cast(ops) && KeyOf(v) == VoteKey(h, r, t, id) && v.blockHash == b
  {
    var s := Run(ops);
    RunKeeps(ops);
    StoredWasGenuine(ops);
    var list := Backing(s, h, r, b, t);
    who := Voters(list);
    if list != [] {
      assert TableOk(h, r, t, s.votes[h].Of(t), s.seen);
      forall id | id in who
        ensures id in members && exists v :: v in Cast(ops) && KeyOf(v) == VoteKey(h, r, t, id) && v.blockHash == b
      {
        var i :| 0 <= i < |list| && list[i].voter == id;
        AdmissibleIsCast(ops, members, list[i]);
        assert KeyOf(list[i]) == VoteKey(h, r, t, id);
      }
    }
    DistinctVoters(list);
  }

  /** Cross-receiver safety. As long as fewer than 2q - n of n validators sign for two blocks, no two receivers, fed
      any votes at all in any order with any clearing and pruning, ever count a quorum for different blocks. */
  lemma NoTwoQuorums(members: set<nat>, faulty: set<nat>, ops: seq<Op>, ops': seq<Op>,
                     h: nat, r: nat, t: VoteType, b: Hash, b': Hash)
    requires faulty <= members && |faulty| < 2 * QuorumSize(|members|) - |members|
    requires OneBlockEach(Cast(ops) + Cast(ops'), members - faulty)
    requires Roster(ops, members) && Roster(ops', members)
    requires VoteCount(Run(ops), h, r, b, t) >= QuorumSize(|members|)
    requires VoteCount(Run(ops'), h, r, b', t) >= QuorumSize(|members|)
    ensures b == b'
  {
    var who := Backers(ops, members, h, r, b, t);
    var who' := Backers(ops', members, h, r, b', t);
    SubsetSize(who + who', members);
    assert |who + who'| == |who| + |who'| - |who * who'|;
    if who * who' <= faulty {
      SubsetSize(who * who', faulty);
      assert false;
    }
    var id :| id in who * who' && id !in faulty;
    var v :| v in Cast(ops) && KeyOf(v) == VoteKey(h, r, t, id) && v.blockHash == b;
    var v' :| v' in Cast(ops') && KeyOf(v') == VoteKey(h, r, t, id) && v'.blockHash == b';
  }

  /** The usual reading: fewer than a third faulty. */
  lemma ByzantineSafety(members: set<nat>, faulty: set<nat>, ops: seq<Op>, ops': seq<Op>,
                        h: nat, r: nat, t: VoteType, b: Hash, b': Hash)
    requires faulty <= members && 3 * |faulty| < |members|
    requires OneBlockEach(Cast(ops) + Cast(ops'), members - faulty)
    requires Roster(ops, members) && Roster(ops', members)
    requires VoteCount(Run(ops), h, r, b, t) >= QuorumSize(|members|)
    requires VoteCount(Run(ops'), h, r, b', t) >= QuorumSize(|members|)
    ensures b == b'
  {
    QuorumOverlap(|members|);
    NoTwoQuorums(members, faulty, ops, ops', h, r, t, b, b');
  }

  // ----- the bound is exact

  function Ids(lo: nat, hi: nat): (s: set<nat>)
    requires lo <= hi
    ensures forall i :: i in s <==> lo <= i < hi
    ensures |s| == hi - lo
    decreases hi - lo
  {
    if lo == hi then {} else {lo} + Ids(lo + 1, hi)
  }

  function Ballot(voter: nat, b: Hash): Vote {
    Vote(0, 0, b, voter, Prevote, seq(64, _ => 0), 0)
  }

  /** Surroundings that accept every signature, at time zero. */
  ghost function Open(validators: map<nat, Validator>, activeCount: nat): Env {
    Env(validators, activeCount, 0, _ => true, _ => true)
  }

  ghost function Everyone(n: nat): Env {
    Open(map id | id in Ids(0, n) :: Validator(true, 1), n)
  }

  ghost function Feed(env: Env, voters: seq<nat>, b: Hash): seq<Op> {
    seq(|voters|, i requires 0 <= i < |voters| => Add(env, Ballot(voters[i], b)))
  }

  ghost function Ballots(voters: seq<nat>, b: Hash): seq<Vote> {
    seq(|voters|, i requires 0 <= i < |voters| => Ballot(voters[i], b))
  }

  /** Distinct members voting for one block are all counted. */
  lemma {:induction false} FeedCounts(env: Env, voters: seq<nat>, b: Hash)
    requires env == Open(env.validators, env.activeCount)
    requires forall i :: 0 <= i < |voters| ==> voters[i] in env.validators && env.validators[voters[i]].active
    requires forall i, j :: 0 <= i < j < |voters| ==> voters[i] != voters[j]
    ensures Backing(Run(Feed(env, voters, b)), 0, 0, b, Prevote) == Ballots(voters, b)
    ensures forall k :: k in Run(Feed(env, voters, b)).seen ==> k.voter in voters
  {
    if voters != [] {
      var m := |voters| - 1;
      FeedCounts(env, voters[..m], b);
      assert Feed(env, voters, b)[..m] == Feed(env, voters[..m], b);
      RunKeeps(Feed(env, voters[..m], b));
      ReceivedKeeps(Run(Feed(env, voters[..m], b)), env, Ballot(voters[m], b));
      assert Ballots(voters, b) == Ballots(voters[..m], b) + [Ballot(voters[m], b)];
    }
  }

  lemma FeedCasts(env: Env, voters: seq<nat>, b: Hash, v: Vote)
    requires v in Cast(Feed(env, voters, b))
    ensures exists i :: 0 <= i < |voters| && v == Ballot(voters[i], b)
  {}

  lemma FeedRoster(n: nat, voters: seq<nat>, b: Hash)
    ensures Roster(Feed(Everyone(n), voters, b), Ids(0, n))
  {}

  /** The voters shown to the first receiver (the lowest q) and to the second (the lowest 2q - n and the rest). */
  ghost function Camp(n: nat, second: bool): (voters: seq<nat>)
    requires 1 <= n
    ensures |voters| == QuorumSize(n)
    ensures forall i :: 0 <= i < |voters| ==>
              voters[i] < n && (if second then InSecondCamp(n, voters[i]) else voters[i] < QuorumSize(n))
    ensures forall i, j :: 0 <= i < j < |voters| ==> voters[i] != voters[j]
  {
    var q := QuorumSize(n);
    seq(q, i requires 0 <= i < q => if !second || i < 2 * q - n then i else i + n - q)
  }

  predicate InSecondCamp(n: nat, id: nat) {
    id < 2 * QuorumSize(n) - n || QuorumSize(n) <= id
  }

  ghost function CampOps(n: nat, second: bool): seq<Op>
    requires 1 <= n
  {
    Feed(Everyone(n), Camp(n, second), if second then 2 else 1)
  }

  lemma CampBallot(n: nat, second: bool, v: Vote)
    requires 1 <= n && v in Cast(CampOps(n, second))
    ensures v.blockHash == (if second then 2 else 1)
    ensures if second then InSecondCamp(n, v.voter) else v.voter < QuorumSize(n)
  {
    FeedCasts(Everyone(n), Camp(n, second), if second then 2 else 1, v);
  }

  lemma ForkIsHonest(n: nat, f: nat)
    requires 1 <= n && 2 * QuorumSize(n) - n <= f <= n
    ensures OneBlockEach(Cast(CampOps(n, false)) + Cast(CampOps(n, true)), Ids(0, n) - Ids(0, f))
  {
    var one, two := Cast(CampOps(n, false)), Cast(CampOps(n, true));
    forall v: Vote, w: Vote |
      v in one + two && w in one + two && v.voter in Ids(0, n) - Ids(0, f) && KeyOf(v) == KeyOf(w)
      ensures v.blockHash == w.blockHash
    {
      CampBallot(n, v in two, v);
      CampBallot(n, w in two, w);
    }
  }

  /** With 2q - n or more validators signing twice, two receivers can be brought to quorums for different blocks. */
  lemma ForkWhenTooManyFaulty(n: nat, f: nat)
    returns (members: set<nat>, faulty: set<nat>, ops: seq<Op>, ops': seq<Op>)
    requires 1 <= n && 2 * QuorumSize(n) - n <= f <= n
    ensures |members| == n && faulty <= members && |faulty| == f
    ensures OneBlockEach(Cast(ops) + Cast(ops'), members - faulty)
    ensures Roster(ops, members) && Roster(ops', members)
    ensures VoteCount(Run(ops), 0, 0, 1, Prevote) >= QuorumSize(|members|)
    ensures VoteCount(Run(ops'), 0, 0, 2, Prevote) >= QuorumSize(|members|)
  {
    members, faulty := Ids(0, n), Ids(0, f);
    ops, ops' := CampOps(n, false), CampOps(n, true);
    ForkIsHonest(n, f);
    FeedRoster(n, Camp(n, false), 1);
    FeedRoster(n, Camp(n, true), 2);
    FeedCounts(Everyone(n), Camp(n, false), 1);
    FeedCounts(Everyone(n), Camp(n, true), 2);
  }

  // ----- the receiver itself

  class VoteManager {
    var votes: map<nat, RoundVotes>
    var seen: set<VoteKey>

    ghost function State(): VoteState
      reads this
    {
      VoteState(votes, seen)
    }

    constructor ()
      ensures State() == EMPTY
    {
      votes, seen := map[], {};
    }

    /** Never answers DoubleVoting: the seen-key test has already filtered every second vote out. */
    method AddVote(env: Env, v: Vote) returns (res: VoteResult)
      requires Inv(State())
      modifies this
      ensures Inv(State())
      ensures (State(), res) == Received(old(State()), env, v)
      ensures res != Rejected(DoubleVoting)
      ensures res.Added? <==> Genuine(env, v) && KeyOf(v) !in old(seen)
    {
      ghost var before := State();
      ReceivedKeeps(before, env, v);
      var e := Validate(env, v);
      if e.Some? {
        return Rejected(e.value);
      }
      if KeyOf(v) in seen {
        return AlreadySeen;
      }
      seen := seen + {KeyOf(v)};
      var quorum := StoreVote(env, v);
      var doubled := DetectDoubleVoting(v);
      res := if doubled then Rejected(DoubleVoting) else Added(quorum);
    }

    method StoreVote(env: Env, v: Vote) returns (quorum: bool)
      modifies `votes
      ensures State() == Store(old(State()), v)
      ensures quorum == (!HasVoter(ForBlock(Current(old(State()), v).Of(v.voteType), v.blockHash), v.voter)
                         && PowerQuorum(State(), env, v))
    {
      if v.height !in votes || votes[v.height].round != v.round {
        votes := votes[v.height := RoundVotes(v.round, map[], map[])];
      }
      var rv := votes[v.height];
      var list := ForBlock(rv.Of(v.voteType), v.blockHash);
      var duplicate := false;
      for i := 0 to |list|
        invariant duplicate <==> HasVoter(list[..i], v.voter)
      {
        assert list[..i + 1] == list[..i] + [list[i]];
        if list[i].voter == v.voter {
          duplicate := true;
          assert list[..i + 1][i].voter == v.voter;
        }
      }
      assert list[..|list|] == list;
      if !duplicate {
        list := list + [v];
      }
      votes := votes[v.height := rv.With(v.voteType, rv.Of(v.voteType)[v.blockHash := list])];
      quorum := !duplicate && CheckQuorum(env, v);
    }

    predicate CheckQuorum(env: Env, v: Vote)
      reads this
      ensures CheckQuorum(env, v) == PowerQuorum(State(), env, v)
    {
      v.height in votes && votes[v.height].round == v.round &&
      Power(env, ForBlock(votes[v.height].Of(v.voteType), v.blockHash)) >= QuorumSize(env.activeCount)
    }

    method DetectDoubleVoting(v: Vote) returns (found: bool)
      ensures found == DoubleVoted(State(), v)
    {
      if v.height !in votes || votes[v.height].round != v.round {
        return false;
      }
      found := AnyElsewhere(votes[v.height].Of(v.voteType), v);
    }

    function GetVoteCount(h: nat, r: nat, b: Hash, t: VoteType): (n: nat)
      reads this
      ensures n == VoteCount(State(), h, r, b, t)
    {
      if h in votes && votes[h].round == r && b in votes[h].Of(t) then |votes[h].Of(t)[b]| else 0
    }

    method ClearRound(h: nat)
      requires Inv(State())
      modifies `votes
      ensures Inv(State()) && State() == Cleared(old(State()), h)
    {
      ForgettingKeeps(State(), h, 0);
      votes := votes - {h};
    }

    method PruneOldHeights(keep: nat)
      requires Inv(State())
      modifies `votes
      ensures Inv(State()) && State() == Pruned(old(State()), keep)
    {
      ghost var before := State();
      ForgettingKeeps(before, 0, keep);
      var heights := Sorted(votes.Keys);
      PrunedIsLowest(before, heights, keep);
      var cut := if |heights| > keep then |heights| - keep else 0;
      RemoveHeights(heights[..cut]);
    }

    method RemoveHeights(heights: seq<nat>)
      modifies `votes
      ensures votes == old(votes) - Elements(heights)
    {
      for k := 0 to |heights|
        invariant votes == old(votes) - Elements(heights[..k])
      {
        assert Elements(heights[..k + 1]) == Elements(heights[..k]) + {heights[k]};
        votes := votes - {heights[k]};
      }
      assert heights[..|heights|] == heights;
    }
  }

  method AnyElsewhere(table: Table, v: Vote) returns (found: bool)
    ensures found == VotedElsewhere(table, v)
  {
    var hashes := Listing(table.Keys);
    for i := 0 to |hashes|
      invariant forall b :: b in table && b != v.blockHash && HasVoter(table[b], v.voter) ==> b in hashes[i..]
    {
      assert hashes[i] in Elements(hashes);
      if hashes[i] != v.blockHash && HasVoter(table[hashes[i]], v.voter) {
        return true;
      }
    }
    return false;
  }

  lemma AboveIsTail(votes: map<nat, RoundVotes>, heights: seq<nat>, i: nat)
    requires Ascending(heights) && Elements(heights) == votes.Keys && i < |heights|
    ensures |Above(votes, heights[i])| == |heights| - i - 1
  {
    var tail := heights[i + 1..];
    assert Above(votes, heights[i]) == Elements(tail);
    assert Ascending(tail);
    AscendingSize(tail);
  }

  /** Dropping all but the last `keep` of the sorted heights is what Pruned describes. */
  lemma PrunedIsLowest(s: VoteState, heights: seq<nat>, keep: nat)
    requires Ascending(heights) && Elements(heights) == s.votes.Keys
    ensures var cut := if |heights| > keep then |heights| - keep else 0;
            Pruned(s, keep).votes == s.votes - Elements(heights[..cut])
  {
    var cut := if |heights| > keep then |heights| - keep else 0;
    forall h | h in s.votes ensures |Above(s.votes, h)| < keep <==> h !in heights[..cut] {
      assert h in Elements(heights);
      var i :| 0 <= i < |heights| && heights[i] == h;
      AboveIsTail(s.votes, heights, i);
      assert i < cut ==> heights[..cut][i] == h;
    }
  }
}
