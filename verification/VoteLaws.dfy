/** What a receiver answers, stated on the vote, the validator table, the clock and the signature schemes alone. */
module VoteLaws {
  import opened Base
  import opened Votes

  ghost predicate Known(env: Env, v: Vote) {
    v.voter in env.validators
  }

  ghost predicate Standing(env: Env, v: Vote) {
    Known(env, v) && env.validators[v.voter].active
  }

  /** Each answer has its own condition, and the conditions are those of the first check that fails. */
  lemma Answers(s: VoteState, env: Env, v: Vote)
    requires Inv(s)
    ensures var answer := Received(s, env, v).1;
            && (answer == Rejected(ValidatorNotFound) <==> !Known(env, v))
            && (answer == Rejected(ValidatorInactive) <==> Known(env, v) && !Standing(env, v))
            && (answer == Rejected(InvalidSignature) <==> Standing(env, v) && !Signed(env, v))
            && (answer == Rejected(InvalidTimestamp) <==>
                Standing(env, v) && Signed(env, v) && (v.timestamp > env.now + 10 || v.timestamp + 60 < env.now))
            && (answer == AlreadySeen <==> Genuine(env, v) && KeyOf(v) in s.seen)
            && (answer.Added? <==> Genuine(env, v) && KeyOf(v) !in s.seen)
  {
    ReceivedKeeps(s, env, v);
  }

  /** A quorum is more than two thirds. */
  lemma QuorumIsMoreThanTwoThirds(n: nat, count: nat)
    ensures count >= QuorumSize(n) <==> 3 * count > 2 * n
  {}

  ghost function WeightOf(env: Env, id: nat): nat {
    if id in env.validators then env.validators[id].votingPower else 0
  }

  ghost function Weights(env: Env, voters: set<nat>): map<nat, nat> {
    map id | id in voters :: WeightOf(env, id)
  }

  lemma OneMoreWeight(env: Env, voters: set<nat>, id: nat, more: set<nat>)
    requires id !in voters && more == voters + {id}
    ensures Sum(Weights(env, more)) == Sum(Weights(env, voters)) + WeightOf(env, id)
  {
    var m := Weights(env, more);
    SumTake(m, id);
    assert m - {id} == Weights(env, voters);
  }

  lemma OneMoreVoter(votes: seq<Vote>, n: nat)
    requires n == |votes| - 1 && forall i, j :: 0 <= i < j < |votes| ==> votes[i].voter != votes[j].voter
    ensures Voters(votes) == Voters(votes[..n]) + {votes[n].voter} && votes[n].voter !in Voters(votes[..n])
  {}

  lemma PowerIsSum(env: Env, votes: seq<Vote>)
    requires forall i, j :: 0 <= i < j < |votes| ==> votes[i].voter != votes[j].voter
    ensures Power(env, votes) == Sum(Weights(env, Voters(votes)))
  {
    PowerIsTotal(env, votes, Voters(votes));
  }

  lemma {:induction false} PowerIsTotal(env: Env, votes: seq<Vote>, voters: set<nat>)
    requires forall i, j :: 0 <= i < j < |votes| ==> votes[i].voter != votes[j].voter
    requires voters == Voters(votes)
    ensures Power(env, votes) == Sum(Weights(env, voters))
  {
    if votes == [] {
      assert Weights(env, voters) == map[];
    } else {
      var n := |votes| - 1;
      var front := voters - {votes[n].voter};
      OneMoreVoter(votes, n);
      PowerIsTotal(env, votes[..n], front);
      OneMoreWeight(env, front, votes[n].voter, voters);
    }
  }

  lemma BackingIsDistinct(s: VoteState, h: nat, r: nat, b: Hash, t: VoteType)
    requires Inv(s)
    ensures var list := Backing(s, h, r, b, t);
            forall i, j :: 0 <= i < j < |list| ==> list[i].voter != list[j].voter
  {
    if h in s.votes {
      assert TableOk(h, s.votes[h].round, t, s.votes[h].Of(t), s.seen);
    }
  }

  /** The flag compares the power behind the block, the new vote's included, with the quorum size. */
  lemma FlagComparesPower(s: VoteState, env: Env, v: Vote, list: seq<Vote>)
    requires Inv(s) && Received(s, env, v).1.Added?
    requires list == Backing(s, v.height, v.round, v.blockHash, v.voteType) + [v]
    ensures Backing(Received(s, env, v).0, v.height, v.round, v.blockHash, v.voteType) == list
    ensures Received(s, env, v).1.quorumReached <==> Power(env, list) >= QuorumSize(env.activeCount)
    ensures Inv(Received(s, env, v).0)
  {
    ReceivedKeeps(s, env, v);
    StoreKeeps(s, v);
  }

  /** The quorum flag: the voters now standing behind the block weigh more than two thirds of the head count. */
  lemma QuorumFlag(s: VoteState, env: Env, v: Vote)
    requires Inv(s) && Received(s, env, v).1.Added?
    ensures var (next, answer) := Received(s, env, v);
            var behind := Voters(Backing(next, v.height, v.round, v.blockHash, v.voteType));
            && v.voter in behind
            && (answer.quorumReached <==> 3 * Sum(Weights(env, behind)) > 2 * env.activeCount)
  {
    var list := Backing(s, v.height, v.round, v.blockHash, v.voteType) + [v];
    FlagComparesPower(s, env, v, list);
    BackingIsDistinct(Received(s, env, v).0, v.height, v.round, v.blockHash, v.voteType);
    PowerIsSum(env, list);
    QuorumIsMoreThanTwoThirds(env.activeCount, Power(env, list));
    assert list[|list| - 1] == v;
  }

  // ----- when the flag means a quorum of validators

  /** One fixed table of active validators, each with some power, as many as the head count. */
  ghost predicate Steady(validators: map<nat, Validator>, n: nat) {
    |validators.Keys| == n && forall id :: id in validators ==> validators[id].active && validators[id].votingPower >= 1
  }

  ghost predicate Under(ops: seq<Op>, validators: map<nat, Validator>) {
    forall k :: 0 <= k < |ops| && ops[k].Add? ==> ops[k].env.validators == validators
  }

  ghost predicate Raised(ops: seq<Op>, env: Env, v: Vote) {
    Received(Run(ops), env, v).1 == Added(true)
  }

  ghost function CountNow(ops: seq<Op>, env: Env, v: Vote): nat {
    VoteCount(Received(Run(ops), env, v).0, v.height, v.round, v.blockHash, v.voteType)
  }

  /** In every run under this table, a raised flag comes with a quorum of votes. */
  ghost predicate FlagMeansQuorum(validators: map<nat, Validator>, n: nat) {
    forall ops, env: Env, v |
      Under(ops, validators) && env.validators == validators && env.activeCount == n && Raised(ops, env, v) ::
      CountNow(ops, env, v) >= QuorumSize(n)
  }

  lemma UnitFlag(validators: map<nat, Validator>, ops: seq<Op>, env: Env, v: Vote)
    requires Under(ops, validators) && env.validators == validators && Raised(ops, env, v)
    requires forall id :: id in validators ==> validators[id].votingPower == 1
    ensures CountNow(ops, env, v) >= QuorumSize(env.activeCount)
  {
    var list := Backing(Run(ops), v.height, v.round, v.blockHash, v.voteType);
    RunKeeps(ops);
    BackersAreRegistered(validators, ops, v.height, v.round, v.blockHash, v.voteType, list);
    ReceivedKeeps(Run(ops), env, v);
    FlagComparesPower(Run(ops), env, v, list + [v]);
    UnitPowerIsCount(env, list + [v]);
  }

  lemma BackersAreRegistered(validators: map<nat, Validator>, ops: seq<Op>, h: nat, r: nat, b: Hash, t: VoteType,
                             list: seq<Vote>)
    requires Under(ops, validators) && list == Backing(Run(ops), h, r, b, t)
    ensures forall i :: 0 <= i < |list| ==> list[i].voter in validators
  {
    StoredWasGenuine(ops);
    forall i | 0 <= i < |list|
      ensures list[i].voter in validators
    {
      assert list[i] in Admissible(ops);
    }
  }

  lemma {:induction false} SomeOf(s: set<nat>, k: nat) returns (xs: seq<nat>)
    requires k <= |s|
    ensures |xs| == k && Distinct(xs) && forall i :: 0 <= i < k ==> xs[i] in s
  {
    xs := [];
    if k > 0 {
      var x :| x in s;
      var rest := SomeOf(s - {x}, k - 1);
      xs := rest + [x];
    }
  }

  lemma {:induction false} PowerAtLeastCount(env: Env, votes: seq<Vote>)
    requires forall i :: 0 <= i < |votes| ==>
               votes[i].voter in env.validators && env.validators[votes[i].voter].votingPower >= 1
    ensures Power(env, votes) >= |votes|
  {
    if votes != [] {
      PowerAtLeastCount(env, votes[..|votes| - 1]);
    }
  }

  lemma LastVoteWeighs(env: Env, votes: seq<Vote>, v: Vote)
    ensures Power(env, votes + [v]) == Power(env, votes) + WeightOf(env, v.voter)
  {
    assert (votes + [v])[..|votes|] == votes;
  }

  /** A validator of power two or more, voting last of q - 1, raises the flag one vote early. */
  lemma EarlyFlag(validators: map<nat, Validator>, n: nat, id: nat) returns (ops: seq<Op>, env: Env, v: Vote)
    requires n >= 2 && Steady(validators, n) && id in validators && validators[id].votingPower >= 2
    ensures Under(ops, validators) && env.validators == validators && env.activeCount == n
    ensures Raised(ops, env, v) && CountNow(ops, env, v) == QuorumSize(n) - 1
  {
    env, v := Open(validators, n), Ballot(id, 1);
    var others := SomeOf(validators.Keys - {id}, QuorumSize(n) - 2);
    ops := Feed(env, others, 1);
    NextAfterFeed(env, others, id, ops, v);
    PowerAtLeastCount(env, Ballots(others, 1));
    LastVoteWeighs(env, Ballots(others, 1), v);
    FlagComparesPower(Run(ops), env, v, Ballots(others, 1) + [v]);
  }

  lemma NextAfterFeed(env: Env, voters: seq<nat>, id: nat, ops: seq<Op>, v: Vote)
    requires env == Open(env.validators, env.activeCount) && ops == Feed(env, voters, 1) && v == Ballot(id, 1)
    requires id in env.validators && env.validators[id].active && id !in voters && Distinct(voters)
    requires forall i :: 0 <= i < |voters| ==> voters[i] in env.validators && env.validators[voters[i]].active
    ensures Inv(Run(ops)) && Backing(Run(ops), 0, 0, 1, Prevote) == Ballots(voters, 1)
    ensures Received(Run(ops), env, v).1.Added?
  {
    FeedCounts(env, voters, 1);
    RunKeeps(ops);
    ReceivedKeeps(Run(ops), env, v);
  }

  /** With at least two validators, none powerless, a raised flag means a quorum of votes in every run if and only if
      every validator has power one. */
  lemma FlagExact(validators: map<nat, Validator>, n: nat)
    requires n >= 2 && Steady(validators, n)
    ensures FlagMeansQuorum(validators, n) <==> forall id :: id in validators ==> validators[id].votingPower == 1
  {
    if id :| id in validators && validators[id].votingPower != 1 {
      var ops, env, v := EarlyFlag(validators, n, id);
    } else {
      forall ops, env: Env, v | Under(ops, validators) && env.validators == validators && env.activeCount == n
                           && Raised(ops, env, v)
        ensures CountNow(ops, env, v) >= QuorumSize(n)
      {
        UnitFlag(validators, ops, env, v);
      }
    }
  }

  /** Clearing forgets exactly one height and unsees nothing. */
  lemma ClearForgets(s: VoteState, h: nat, h': nat, r: nat, b: Hash, t: VoteType)
    ensures Backing(Cleared(s, h), h', r, b, t) == if h' == h then [] else Backing(s, h', r, b, t)
    ensures Cleared(s, h).seen == s.seen
  {}

  lemma {:induction false} Greatest(keys: set<nat>) returns (top: nat)
    requires keys != {}
    ensures top in keys && forall y :: y in keys ==> y <= top
  {
    var first :| first in keys;
    var rest := keys - {first};
    if rest == {} {
      assert forall y :: y in keys ==> y == first || y in rest;
      top := first;
    } else {
      var other := Greatest(rest);
      assert forall y :: y in keys ==> y == first || y in rest;
      top := if other > first then other else first;
    }
  }

  lemma {:induction false} InOrder(keys: set<nat>) returns (xs: seq<nat>)
    ensures Ascending(xs) && Elements(xs) == keys
  {
    xs := [];
    if keys != {} {
      var top := Greatest(keys);
      var below := InOrder(keys - {top});
      assert forall i :: 0 <= i < |below| ==> below[i] in Elements(below);
      ElementsAppend(below, top);
      xs := below + [top];
    }
  }

  /** Pruning forgets nothing while there is room, and otherwise keeps `keep` heights. */
  lemma PruneSize(s: VoteState, keep: nat)
    ensures |Pruned(s, keep).votes.Keys| == if |s.votes.Keys| < keep then |s.votes.Keys| else keep
  {
    var heights := InOrder(s.votes.Keys);
    var cut := if |heights| > keep then |heights| - keep else 0;
    var lost := Elements(heights[..cut]);
    PrunedIsLowest(s, heights, keep);
    AscendingSize(heights);
    AscendingSize(heights[..cut]);
    assert lost <= Elements(heights);
    assert Pruned(s, keep).votes.Keys == s.votes.Keys - lost;
  }

  /** The heights it keeps are the highest, with their votes as they were. */
  lemma PruneKeepsHighest(s: VoteState, keep: nat, h: nat)
    requires h in Pruned(s, keep).votes
    ensures h in s.votes && Pruned(s, keep).votes[h] == s.votes[h]
    ensures forall h' :: h' in s.votes && h' > h ==> h' in Pruned(s, keep).votes
    ensures Pruned(s, keep).seen == s.seen
  {
    forall h' | h' in s.votes && h' > h
      ensures h' in Pruned(s, keep).votes
    {
      SubsetSize(Above(s.votes, h'), Above(s.votes, h));
    }
  }
}
