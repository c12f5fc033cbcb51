/** Exactly which votes a receiver counts after any run, and which are lost for good. */
module VoteCounts {
  import opened Base
  import opened Votes

  /** The height is remembered, and at this round. */
  predicate AtRound(s: VoteState, h: nat, r: nat) {
    h in s.votes && s.votes[h].round == r
  }

  predicate IsValid(op: Op) {
    op.Add? && Genuine(op.env, op.vote)
  }

  /** The k-th operation is the first genuine vote with this key. */
  ghost predicate FirstVote(ops: seq<Op>, k: nat, key: VoteKey) {
    k < |ops| && IsValid(ops[k]) && KeyOf(ops[k].vote) == key
    && forall j :: 0 <= j < k && IsValid(ops[j]) ==> KeyOf(ops[j].vote) != key
  }

  /** Since the k-th operation the height has stayed at this round. */
  ghost predicate Kept(ops: seq<Op>, k: nat, h: nat, r: nat) {
    forall j :: k < j <= |ops| ==> AtRound(Run(ops[..j]), h, r)
  }

  /** The voter's first genuine vote named the block, and the height's votes have not been reset since. */
  ghost predicate Counted(ops: seq<Op>, h: nat, r: nat, b: Hash, t: VoteType, id: nat) {
    exists k: nat :: CountedAt(ops, k, h, r, b, VoteKey(h, r, t, id))
  }

  ghost predicate CountedAt(ops: seq<Op>, k: nat, h: nat, r: nat, b: Hash, key: VoteKey) {
    FirstVote(ops, k, key) && ops[k].vote.blockHash == b && Kept(ops, k, h, r)
  }

  ghost predicate Voted(ops: seq<Op>, key: VoteKey) {
    exists k :: 0 <= k < |ops| && IsValid(ops[k]) && KeyOf(ops[k].vote) == key
  }

  lemma VotedNext(ops: seq<Op>, n: nat, key: VoteKey)
    requires n == |ops| - 1
    ensures Voted(ops, key) <==> Voted(ops[..n], key) || (IsValid(ops[n]) && KeyOf(ops[n].vote) == key)
  {
    if k :| 0 <= k < n && IsValid(ops[..n][k]) && KeyOf(ops[..n][k].vote) == key {
      assert IsValid(ops[k]);
    }
    if k :| 0 <= k < n && IsValid(ops[k]) && KeyOf(ops[k].vote) == key {
      assert IsValid(ops[..n][k]);
    }
  }

  /** Seen keys are the keys of the genuine votes received. */
  lemma {:induction false} SeenIsVoted(ops: seq<Op>, key: VoteKey)
    ensures key in Run(ops).seen <==> Voted(ops, key)
  {
    if ops != [] {
      var n := |ops| - 1;
      SeenIsVoted(ops[..n], key);
      VotedNext(ops, n, key);
      RunKeeps(ops[..n]);
      if ops[n].Add? {
        ReceivedKeeps(Run(ops[..n]), ops[n].env, ops[n].vote);
      }
    }
  }

  /** The last operation is a first vote exactly when its key was not seen before it. */
  lemma LastIsFirst(ops: seq<Op>, n: nat, key: VoteKey)
    requires n == |ops| - 1
    ensures FirstVote(ops, n, key) <==> IsValid(ops[n]) && KeyOf(ops[n].vote) == key && key !in Run(ops[..n]).seen
  {
    SeenIsVoted(ops[..n], key);
    if j :| 0 <= j < n && IsValid(ops[j]) && KeyOf(ops[j].vote) == key {
      assert IsValid(ops[..n][j]);
    }
  }

  lemma FirstVoteEarlier(ops: seq<Op>, n: nat, k: nat, key: VoteKey)
    requires k < n <= |ops|
    ensures FirstVote(ops[..n], k, key) <==> FirstVote(ops, k, key)
  {
    assert forall j :: 0 <= j < n ==> ops[..n][j] == ops[j];
  }

  lemma KeptShorter(ops: seq<Op>, n: nat, k: nat, h: nat, r: nat)
    requires k < n <= |ops| && Kept(ops, k, h, r)
    ensures Kept(ops[..n], k, h, r) && AtRound(Run(ops), h, r)
  {
    assert ops[..|ops|] == ops;
    forall j | k < j <= n ensures AtRound(Run(ops[..n][..j]), h, r) {
      assert ops[..n][..j] == ops[..j];
    }
  }

  lemma KeptLonger(ops: seq<Op>, n: nat, k: nat, h: nat, r: nat)
    requires n == |ops| - 1 && k < n && Kept(ops[..n], k, h, r) && AtRound(Run(ops), h, r)
    ensures Kept(ops, k, h, r)
  {
    assert ops[..|ops|] == ops;
    forall j | k < j <= |ops| ensures AtRound(Run(ops[..j]), h, r) {
      if j <= n {
        assert ops[..n][..j] == ops[..j];
      }
    }
  }

  lemma CountedShorter(ops: seq<Op>, n: nat, k: nat, h: nat, r: nat, b: Hash, key: VoteKey)
    requires k < n <= |ops| && CountedAt(ops, k, h, r, b, key)
    ensures CountedAt(ops[..n], k, h, r, b, key) && AtRound(Run(ops), h, r)
  {
    FirstVoteEarlier(ops, n, k, key);
    KeptShorter(ops, n, k, h, r);
  }

  lemma CountedLonger(ops: seq<Op>, n: nat, k: nat, h: nat, r: nat, b: Hash, key: VoteKey)
    requires n == |ops| - 1 && CountedAt(ops[..n], k, h, r, b, key) && AtRound(Run(ops), h, r)
    ensures CountedAt(ops, k, h, r, b, key)
  {
    FirstVoteEarlier(ops, n, k, key);
    KeptLonger(ops, n, k, h, r);
  }

  lemma CountedLast(ops: seq<Op>, n: nat, h: nat, r: nat, b: Hash, key: VoteKey)
    requires n == |ops| - 1
    ensures CountedAt(ops, n, h, r, b, key)
            <==> FirstVote(ops, n, key) && ops[n].vote.blockHash == b && AtRound(Run(ops), h, r)
  {
    assert ops[..|ops|] == ops;
    if Kept(ops, n, h, r) {
      assert AtRound(Run(ops[..|ops|]), h, r);
    }
  }

  /** One operation on: a vote counts if it counted before or is a new first vote, and the round still stands. */
  lemma CountedNext(ops: seq<Op>, n: nat, h: nat, r: nat, b: Hash, t: VoteType, id: nat)
    requires n == |ops| - 1
    ensures Counted(ops, h, r, b, t, id)
            <==> AtRound(Run(ops), h, r) &&
                 (Counted(ops[..n], h, r, b, t, id) ||
                  (FirstVote(ops, n, VoteKey(h, r, t, id)) && ops[n].vote.blockHash == b))
  {
    var key := VoteKey(h, r, t, id);
    CountedLast(ops, n, h, r, b, key);
    if Counted(ops, h, r, b, t, id) {
      var k: nat :| CountedAt(ops, k, h, r, b, key);
      if k < n {
        CountedShorter(ops, n, k, h, r, b, key);
      }
    }
    if AtRound(Run(ops), h, r) && Counted(ops[..n], h, r, b, t, id) {
      var k: nat :| CountedAt(ops[..n], k, h, r, b, key);
      CountedLonger(ops, n, k, h, r, b, key);
    }
  }

  // ----- the same step on the stored votes

  /** Storing a vote resets another round, and adds the vote to its own list. */
  lemma StoredBacking(s: VoteState, v: Vote, h: nat, r: nat, b: Hash, t: VoteType)
    requires Inv(s) && KeyOf(v) !in s.seen
    ensures var s' := Store(s.(seen := s.seen + {KeyOf(v)}), v);
            && (AtRound(s', h, r) <==> if h == v.height then r == v.round else AtRound(s, h, r))
            && Backing(s', h, r, b, t)
               == if h == v.height && r != v.round then []
                  else Backing(s, h, r, b, t) + Share(v, h, b, t)
  {
    StoreKeeps(s, v);
  }

  ghost predicate IsNew(s: VoteState, op: Op, key: VoteKey) {
    IsValid(op) && KeyOf(op.vote) == key && key !in s.seen
  }

  lemma AppendedVoter(votes: seq<Vote>, more: seq<Vote>, id: nat)
    ensures HasVoter(votes + more, id) <==> HasVoter(votes, id) || HasVoter(more, id)
  {
    if i :| 0 <= i < |votes| && votes[i].voter == id {
      assert (votes + more)[i].voter == id;
    }
    if i :| 0 <= i < |more| && more[i].voter == id {
      assert (votes + more)[|votes| + i].voter == id;
    }
  }

  /** The list a vote adds to a block's votes. */
  function Share(v: Vote, h: nat, b: Hash, t: VoteType): seq<Vote> {
    if h == v.height && b == v.blockHash && t == v.voteType then [v] else []
  }

  lemma ShareVoter(v: Vote, h: nat, b: Hash, t: VoteType, id: nat)
    ensures HasVoter(Share(v, h, b, t), id) <==> h == v.height && b == v.blockHash && t == v.voteType && id == v.voter
  {
    if h == v.height && b == v.blockHash && t == v.voteType && id == v.voter {
      assert Share(v, h, b, t)[0].voter == id;
    }
  }

  lemma BackingAfterNew(s: VoteState, v: Vote, s': VoteState, h: nat, r: nat, b: Hash, t: VoteType, id: nat)
    requires Inv(s) && KeyOf(v) !in s.seen && s' == Store(s.(seen := s.seen + {KeyOf(v)}), v)
    ensures HasVoter(Backing(s', h, r, b, t), id)
            <==> AtRound(s', h, r) && (HasVoter(Backing(s, h, r, b, t), id) ||
                                       (KeyOf(v) == VoteKey(h, r, t, id) && v.blockHash == b))
  {
    StoredBacking(s, v, h, r, b, t);
    AppendedVoter(Backing(s, h, r, b, t), Share(v, h, b, t), id);
    ShareVoter(v, h, b, t, id);
  }

  lemma NewIsStored(s: VoteState, op: Op)
    requires Inv(s) && IsValid(op)
    ensures Apply(s, op) == if KeyOf(op.vote) in s.seen then s
                            else Store(s.(seen := s.seen + {KeyOf(op.vote)}), op.vote)
  {
    ReceivedKeeps(s, op.env, op.vote);
  }

  lemma BackingNext(s: VoteState, op: Op, h: nat, r: nat, b: Hash, t: VoteType, id: nat)
    requires Inv(s)
    ensures HasVoter(Backing(Apply(s, op), h, r, b, t), id)
            <==> AtRound(Apply(s, op), h, r) &&
                 (HasVoter(Backing(s, h, r, b, t), id) ||
                  (IsNew(s, op, VoteKey(h, r, t, id)) && op.vote.blockHash == b))
  {
    if IsValid(op) {
      NewIsStored(s, op);
      if KeyOf(op.vote) !in s.seen {
        BackingAfterNew(s, op.vote, Apply(s, op), h, r, b, t, id);
      }
    }
  }

  lemma NewIsFirst(ops: seq<Op>, n: nat, key: VoteKey)
    requires n == |ops| - 1
    ensures IsNew(Run(ops[..n]), ops[n], key) <==> FirstVote(ops, n, key)
  {
    LastIsFirst(ops, n, key);
  }

  lemma RunStep(ops: seq<Op>, n: nat)
    requires n == |ops| - 1
    ensures Run(ops) == Apply(Run(ops[..n]), ops[n])
  {}

  lemma {:induction false} BackersAreCounted(ops: seq<Op>, h: nat, r: nat, b: Hash, t: VoteType, id: nat)
    ensures HasVoter(Backing(Run(ops), h, r, b, t), id) <==> Counted(ops, h, r, b, t, id)
  {
    if ops != [] {
      var n := |ops| - 1;
      BackersAreCounted(ops[..n], h, r, b, t, id);
      RunKeeps(ops[..n]);
      RunStep(ops, n);
      BackingNext(Run(ops[..n]), ops[n], h, r, b, t, id);
      NewIsFirst(ops, n, VoteKey(h, r, t, id));
      CountedNext(ops, n, h, r, b, t, id);
    }
  }

  /** The count after any run: as many as there are voters whose first genuine vote for that height, round and kind
      named the block and whose height has stayed at that round since. */
  lemma CountExact(ops: seq<Op>, h: nat, r: nat, b: Hash, t: VoteType) returns (who: set<nat>)
    ensures |who| == VoteCount(Run(ops), h, r, b, t)
    ensures forall id :: id in who <==> Counted(ops, h, r, b, t, id)
  {
    var s := Run(ops);
    var list := Backing(s, h, r, b, t);
    RunKeeps(ops);
    who := Voters(list);
    if list != [] {
      assert TableOk(h, r, t, s.votes[h].Of(t), s.seen);
    }
    DistinctVoters(list);
    forall id: nat ensures id in who <==> Counted(ops, h, r, b, t, id) {
      BackersAreCounted(ops, h, r, b, t, id);
    }
  }

  lemma FirstVoteIsOne(ops: seq<Op>, j: nat, k: nat, key: VoteKey)
    requires FirstVote(ops, j, key) && FirstVote(ops, k, key)
    ensures j == k
  {}

  lemma {:induction false} FirstOfVoted(ops: seq<Op>, key: VoteKey) returns (k: nat)
    requires Voted(ops, key)
    ensures FirstVote(ops, k, key)
  {
    var n := |ops| - 1;
    VotedNext(ops, n, key);
    if Voted(ops[..n], key) {
      k := FirstOfVoted(ops[..n], key);
      FirstVoteEarlier(ops, n, k, key);
    } else {
      k := n;
      SeenIsVoted(ops[..n], key);
      LastIsFirst(ops, n, key);
    }
  }

  lemma CountedSince(ops: seq<Op>, n: nat, h: nat, r: nat, b: Hash, t: VoteType, id: nat)
    requires n <= |ops| && Voted(ops[..n], VoteKey(h, r, t, id)) && Counted(ops, h, r, b, t, id)
    ensures Counted(ops[..n], h, r, b, t, id)
  {
    var key := VoteKey(h, r, t, id);
    var k: nat :| CountedAt(ops, k, h, r, b, key);
    var first := FirstOfVoted(ops[..n], key);
    FirstVoteEarlier(ops, n, first, key);
    FirstVoteIsOne(ops, first, k, key);
    CountedShorter(ops, n, k, h, r, b, key);
  }

  /** A vote that was received and is not counted, for its round was left or its height forgotten, is lost: however the
      run goes on, and whatever that voter sends, it is never counted for that block again. */
  lemma LostForGood(ops: seq<Op>, n: nat, h: nat, r: nat, b: Hash, t: VoteType, id: nat)
    requires n <= |ops| && VoteKey(h, r, t, id) in Run(ops[..n]).seen
    requires !HasVoter(Backing(Run(ops[..n]), h, r, b, t), id)
    ensures !HasVoter(Backing(Run(ops), h, r, b, t), id)
  {
    SeenIsVoted(ops[..n], VoteKey(h, r, t, id));
    BackersAreCounted(ops[..n], h, r, b, t, id);
    BackersAreCounted(ops, h, r, b, t, id);
    if Counted(ops, h, r, b, t, id) {
      CountedSince(ops, n, h, r, b, t, id);
    }
  }
}
