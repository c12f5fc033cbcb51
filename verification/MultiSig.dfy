/** M-of-N signatures: greedy matching of signatures to keys. */
module MultiSignatures {
  import opened Base

  type Key = seq<Byte>

  /** Decoding and checking are left to the signature library; the message is fixed. */
  datatype Scheme = Scheme(keyOk: seq<Byte> -> bool, signatureOk: seq<Byte> -> bool, verifies: (Key, seq<Byte>) -> bool)

  datatype MultiSig = MultiSig(threshold: nat, keys: seq<Key>)

  /** A threshold between one and the number of keys, and only well-formed keys. */
  function Create(scheme: Scheme, threshold: nat, keys: seq<seq<Byte>>): (r: Option<MultiSig>)
    ensures r.Some? <==> 1 <= threshold <= |keys| && forall k :: 0 <= k < |keys| ==> scheme.keyOk(keys[k])
    ensures r.Some? ==> r.value == MultiSig(threshold, keys)
  {
    if threshold == 0 || threshold > |keys| then None
    else if exists k :: 0 <= k < |keys| && !scheme.keyOk(keys[k]) then None
    else Some(MultiSig(threshold, keys))
  }

  /** Signature s is well-formed and verifies under key k. */
  predicate Signs(scheme: Scheme, keys: seq<Key>, signatures: seq<seq<Byte>>, k: nat, s: nat)
    requires k < |keys| && s < |signatures|
  {
    scheme.signatureOk(signatures[s]) && scheme.verifies(keys[k], signatures[s])
  }

  /** Distinct keys matched to distinct positions of valid signatures. */
  ghost predicate IsMatching(scheme: Scheme, keys: seq<Key>, signatures: seq<seq<Byte>>, m: map<nat, nat>) {
    (forall k :: k in m ==> k < |keys| && m[k] < |signatures| && Signs(scheme, keys, signatures, k, m[k])) &&
    (forall k, l :: k in m && l in m && k != l ==> m[k] != m[l])
  }

  ghost predicate HasSignature(scheme: Scheme, keys: seq<Key>, signatures: seq<seq<Byte>>, k: nat, n: nat)
    requires k < |keys| && n <= |signatures|
  {
    exists s :: 0 <= s < n && Signs(scheme, keys, signatures, k, s)
  }

  /** The keys with a valid signature among the first n. */
  ghost function SignedKeys(scheme: Scheme, keys: seq<Key>, signatures: seq<seq<Byte>>, n: nat): set<nat>
    requires n <= |signatures|
  {
    set k: nat | k < |keys| && HasSignature(scheme, keys, signatures, k, n)
  }

  /** Two signatures verify under the same keys or share none, as when each comes from one key that may be listed
      twice. */
  ghost predicate Kindred(scheme: Scheme, keys: seq<Key>, signatures: seq<seq<Byte>>) {
    forall s, t, k, l :: 0 <= s < |signatures| && 0 <= t < |signatures| && 0 <= k < |keys| && 0 <= l < |keys| ==>
      Signs(scheme, keys, signatures, k, s) && Signs(scheme, keys, signatures, k, t) ==>
        Signs(scheme, keys, signatures, l, s) ==> Signs(scheme, keys, signatures, l, t)
  }

  ghost predicate OneKeyEach(scheme: Scheme, keys: seq<Key>, signatures: seq<seq<Byte>>) {
    forall k, l, s :: 0 <= k < |keys| && 0 <= l < |keys| && 0 <= s < |signatures| ==>
      Signs(scheme, keys, signatures, k, s) && Signs(scheme, keys, signatures, l, s) ==> k == l
  }

  /** Signatures are kindred whenever each verifies under copies of a single key only. */
  lemma OneKeyValueIsKindred(scheme: Scheme, keys: seq<Key>, signatures: seq<seq<Byte>>)
    requires forall k, l, s :: 0 <= k < |keys| && 0 <= l < |keys| && 0 <= s < |signatures| ==>
               Signs(scheme, keys, signatures, k, s) && Signs(scheme, keys, signatures, l, s) ==> keys[k] == keys[l]
    ensures Kindred(scheme, keys, signatures)
  {}

  /** The lowest unused key from `start` on that signature s verifies under. */
  function FirstFree(scheme: Scheme, keys: seq<Key>, signatures: seq<seq<Byte>>, s: nat, used: set<nat>, start: nat)
      : Option<nat>
    requires s < |signatures| && start <= |keys|
    decreases |keys| - start
  {
    if start == |keys| then None
    else if start !in used && Signs(scheme, keys, signatures, start, s) then Some(start)
    else FirstFree(scheme, keys, signatures, s, used, start + 1)
  }

  lemma {:induction false} FirstFreeIsLowest(scheme: Scheme, keys: seq<Key>, signatures: seq<seq<Byte>>, s: nat,
                                             used: set<nat>, start: nat, found: Option<nat>)
    requires s < |signatures| && start <= |keys| && found == FirstFree(scheme, keys, signatures, s, used, start)
    ensures found.Some? ==> start <= found.value < |keys| && found.value !in used
                            && Signs(scheme, keys, signatures, found.value, s)
    ensures forall k :: start <= k < (if found.Some? then found.value else |keys|) ==>
              Signs(scheme, keys, signatures, k, s) ==> k in used
    decreases |keys| - start
  {
    if start < |keys| && (start in used || !Signs(scheme, keys, signatures, start, s)) {
      FirstFreeIsLowest(scheme, keys, signatures, s, used, start + 1, found);
    }
  }

  /** The inner loop finds that key. */
  method FindKey(scheme: Scheme, keys: seq<Key>, signatures: seq<seq<Byte>>, s: nat, used: set<nat>)
    returns (found: Option<nat>)
    requires s < |signatures|
    ensures found == FirstFree(scheme, keys, signatures, s, used, 0)
  {
    if !scheme.signatureOk(signatures[s]) {
      FirstFreeIsLowest(scheme, keys, signatures, s, used, 0, FirstFree(scheme, keys, signatures, s, used, 0));
      return None;
    }
    for k := 0 to |keys|
      invariant FirstFree(scheme, keys, signatures, s, used, 0) == FirstFree(scheme, keys, signatures, s, used, k)
    {
      if k !in used && scheme.verifies(keys[k], signatures[s]) {
        return Some(k);
      }
    }
    return None;
  }

  /** The keys in use after the first n signatures, each having taken the lowest free one. */
  function UsedAfter(scheme: Scheme, keys: seq<Key>, signatures: seq<seq<Byte>>, n: nat): set<nat>
    requires n <= |signatures|
  {
    if n == 0 then {}
    else
      var used := UsedAfter(scheme, keys, signatures, n - 1);
      match FirstFree(scheme, keys, signatures, n - 1, used, 0)
      case None => used
      case Some(k) => used + {k}
  }

  /** How many of the first n signatures took a key. */
  function CountAfter(scheme: Scheme, keys: seq<Key>, signatures: seq<seq<Byte>>, n: nat): nat
    requires n <= |signatures|
  {
    if n == 0 then 0
    else
      var used := UsedAfter(scheme, keys, signatures, n - 1);
      var found := FirstFree(scheme, keys, signatures, n - 1, used, 0);
      CountAfter(scheme, keys, signatures, n - 1) + (if found.Some? then 1 else 0)
  }

  lemma {:induction false} CountIsSize(scheme: Scheme, keys: seq<Key>, signatures: seq<seq<Byte>>, n: nat)
    requires n <= |signatures|
    ensures CountAfter(scheme, keys, signatures, n) == |UsedAfter(scheme, keys, signatures, n)|
  {
    if n > 0 {
      var used := UsedAfter(scheme, keys, signatures, n - 1);
      CountIsSize(scheme, keys, signatures, n - 1);
      FirstFreeIsLowest(scheme, keys, signatures, n - 1, used, 0, FirstFree(scheme, keys, signatures, n - 1, used, 0));
    }
  }

  lemma {:induction false} CountGrows(scheme: Scheme, keys: seq<Key>, signatures: seq<seq<Byte>>, s: nat, n: nat)
    requires s <= n <= |signatures|
    ensures CountAfter(scheme, keys, signatures, s) <= CountAfter(scheme, keys, signatures, n)
    decreases n - s
  {
    if s < n {
      CountGrows(scheme, keys, signatures, s, n - 1);
    }
  }

  /** Signature t found a key, or all its keys were taken. */
  ghost predicate Settled(scheme: Scheme, keys: seq<Key>, signatures: seq<seq<Byte>>, t: nat, m: map<nat, nat>)
    requires t < |signatures|
  {
    (exists k :: k in m && m[k] == t) || forall k :: 0 <= k < |keys| && Signs(scheme, keys, signatures, k, t) ==> k in m
  }

  /** After the first s signatures: the used keys are matched to some of them and each is settled; if no signature
      serves two keys, the used keys are all the keys signed so far. */
  ghost predicate Progress(scheme: Scheme, keys: seq<Key>, signatures: seq<seq<Byte>>, s: nat, used: set<nat>,
                           m: map<nat, nat>)
    requires s <= |signatures|
  {
    IsMatching(scheme, keys, signatures, m) && m.Keys == used && (forall k :: k in m ==> m[k] < s) &&
    (forall t :: 0 <= t < s ==> Settled(scheme, keys, signatures, t, m)) &&
    (OneKeyEach(scheme, keys, signatures) ==> used == SignedKeys(scheme, keys, signatures, s))
  }

  lemma SettledStays(scheme: Scheme, keys: seq<Key>, signatures: seq<seq<Byte>>, t: nat, m: map<nat, nat>,
                     k: nat, s: nat)
    requires t < |signatures| && Settled(scheme, keys, signatures, t, m) && k !in m
    ensures Settled(scheme, keys, signatures, t, m[k := s])
  {
    if l :| l in m && m[l] == t {
      assert m[k := s][l] == t;
    }
  }

  lemma ProgressStep(scheme: Scheme, keys: seq<Key>, signatures: seq<seq<Byte>>, s: nat, used: set<nat>,
                     m: map<nat, nat>, found: Option<nat>)
    requires s < |signatures| && Progress(scheme, keys, signatures, s, used, m)
    requires found.Some? ==> found.value < |keys| && found.value !in used
                             && Signs(scheme, keys, signatures, found.value, s)
    requires found == None ==> forall k :: 0 <= k < |keys| && Signs(scheme, keys, signatures, k, s) ==> k in used
    ensures found.Some? ==> Progress(scheme, keys, signatures, s + 1, used + {found.value}, m[found.value := s])
    ensures found == None ==> Progress(scheme, keys, signatures, s + 1, used, m)
  {
    if OneKeyEach(scheme, keys, signatures) {
      UsedAreSigned(scheme, keys, signatures, s, used, found);
    }
    if found.Some? {
      var m' := m[found.value := s];
      assert m'.Keys == used + {found.value};
      forall t | 0 <= t < s + 1 ensures Settled(scheme, keys, signatures, t, m') {
        if t < s {
          SettledStays(scheme, keys, signatures, t, m, found.value, s);
        } else {
          assert m'[found.value] == s;
        }
      }
    }
  }

  /** At every point the keys in use are matched. */
  lemma {:induction false} GreedyProgress(scheme: Scheme, keys: seq<Key>, signatures: seq<seq<Byte>>, s: nat)
    returns (m: map<nat, nat>)
    requires s <= |signatures|
    ensures Progress(scheme, keys, signatures, s, UsedAfter(scheme, keys, signatures, s), m)
  {
    m := map[];
    if s == 0 {
      assert SignedKeys(scheme, keys, signatures, 0) == {};
    } else {
      var used := UsedAfter(scheme, keys, signatures, s - 1);
      var found := FirstFree(scheme, keys, signatures, s - 1, used, 0);
      FirstFreeIsLowest(scheme, keys, signatures, s - 1, used, 0, found);
      m := GreedyProgress(scheme, keys, signatures, s - 1);
      ProgressStep(scheme, keys, signatures, s - 1, used, m, found);
      if found.Some? {
        m := m[found.value := s - 1];
      }
    }
  }

  // ----- greedy matching is as good as any

  lemma {:induction false} InjectionSize(f: map<nat, nat>, target: set<nat>)
    requires forall k :: k in f ==> f[k] in target
    requires forall k, l :: k in f && l in f && k != l ==> f[k] != f[l]
    ensures |f| <= |target|
    decreases |f|
  {
    if f != map[] {
      var k :| k in f;
      var rest := f - {k};
      assert rest.Keys == f.Keys - {k};
      assert |rest| == |rest.Keys| && |f| == |f.Keys|;
      InjectionSize(rest, target - {f[k]});
    }
  }

  ghost predicate AllTaken(scheme: Scheme, keys: seq<Key>, signatures: seq<seq<Byte>>, t: nat, m: map<nat, nat>)
    requires t < |signatures|
  {
    forall k :: 0 <= k < |keys| && Signs(scheme, keys, signatures, k, t) ==> k in m
  }

  /** Send a key of another matching to itself if greedy took all keys of its signature t, else to the key greedy
      gave that signature. */
  ghost function Stand(scheme: Scheme, keys: seq<Key>, signatures: seq<seq<Byte>>, m: map<nat, nat>, k: nat, t: nat)
      : (r: nat)
    requires IsMatching(scheme, keys, signatures, m)
    requires k < |keys| && t < |signatures| && Signs(scheme, keys, signatures, k, t)
    requires Settled(scheme, keys, signatures, t, m)
    ensures r in m && r < |keys| && Signs(scheme, keys, signatures, r, t)
    ensures if AllTaken(scheme, keys, signatures, t, m) then r == k else m[r] == t
  {
    if AllTaken(scheme, keys, signatures, t, m) then k
    else
      var l :| l in m && m[l] == t;
      l
  }

  lemma StandsApart(scheme: Scheme, keys: seq<Key>, signatures: seq<seq<Byte>>, m: map<nat, nat>,
                    k: nat, s: nat, l: nat, t: nat)
    requires IsMatching(scheme, keys, signatures, m) && Kindred(scheme, keys, signatures) && k != l && s != t
    requires k < |keys| && s < |signatures| && Signs(scheme, keys, signatures, k, s)
    requires Settled(scheme, keys, signatures, s, m)
    requires l < |keys| && t < |signatures| && Signs(scheme, keys, signatures, l, t)
    requires Settled(scheme, keys, signatures, t, m)
    ensures Stand(scheme, keys, signatures, m, k, s) != Stand(scheme, keys, signatures, m, l, t)
  {
    var x, y := Stand(scheme, keys, signatures, m, k, s), Stand(scheme, keys, signatures, m, l, t);
    if x == y {
      SameKeys(scheme, keys, signatures, m, s, t, x);
    }
  }

  lemma SameKeys(scheme: Scheme, keys: seq<Key>, signatures: seq<seq<Byte>>, m: map<nat, nat>, s: nat, t: nat, k: nat)
    requires Kindred(scheme, keys, signatures) && s < |signatures| && t < |signatures| && k < |keys|
    requires Signs(scheme, keys, signatures, k, s) && Signs(scheme, keys, signatures, k, t)
    ensures AllTaken(scheme, keys, signatures, s, m) <==> AllTaken(scheme, keys, signatures, t, m)
  {}

  /** No two keys stand on the same one, so no matching is larger than one that leaves every signature settled. */
  lemma SettledIsLargest(scheme: Scheme, keys: seq<Key>, signatures: seq<seq<Byte>>, m: map<nat, nat>,
                         other: map<nat, nat>)
    requires Kindred(scheme, keys, signatures)
    requires IsMatching(scheme, keys, signatures, m) && IsMatching(scheme, keys, signatures, other)
    requires forall t :: 0 <= t < |signatures| ==> Settled(scheme, keys, signatures, t, m)
    ensures |other| <= |m|
  {
    var f := map k | k in other :: Stand(scheme, keys, signatures, m, k, other[k]);
    forall k, l | k in f && l in f && k != l ensures f[k] != f[l] {
      StandsApart(scheme, keys, signatures, m, k, other[k], l, other[l]);
    }
    InjectionSize(f, m.Keys);
    assert f.Keys == other.Keys;
    assert |f| == |f.Keys| && |other| == |other.Keys| && |m| == |m.Keys|;
  }

  ghost predicate HasMatching(scheme: Scheme, keys: seq<Key>, signatures: seq<seq<Byte>>, size: nat) {
    exists m :: IsMatching(scheme, keys, signatures, m) && |m| == size
  }

  lemma {:induction false} MatchingShrinks(scheme: Scheme, keys: seq<Key>, signatures: seq<seq<Byte>>, m: map<nat, nat>,
                                           size: nat)
    requires IsMatching(scheme, keys, signatures, m) && size <= |m|
    ensures HasMatching(scheme, keys, signatures, size)
    decreases |m|
  {
    if size < |m| {
      var k :| k in m;
      var rest := m - {k};
      assert rest.Keys == m.Keys - {k};
      assert |rest| == |rest.Keys| && |m| == |m.Keys|;
      MatchingShrinks(scheme, keys, signatures, rest, size);
    }
  }

  /** Greedy matching reaches the threshold. */
  predicate Reaches(scheme: Scheme, sig: MultiSig, signatures: seq<seq<Byte>>) {
    CountAfter(scheme, sig.keys, signatures, |signatures|) >= sig.threshold
  }

  /** What the answer means: acceptance comes with a matching of the required size; for kindred signatures it happens
      exactly when such a matching exists; when no signature serves two keys, exactly when enough keys have a
      signature. */
  ghost predicate RightAnswer(scheme: Scheme, sig: MultiSig, signatures: seq<seq<Byte>>, accepted: bool) {
    (accepted ==> HasMatching(scheme, sig.keys, signatures, sig.threshold)) &&
    (Kindred(scheme, sig.keys, signatures) ==>
       (accepted <==> HasMatching(scheme, sig.keys, signatures, sig.threshold))) &&
    (OneKeyEach(scheme, sig.keys, signatures) ==>
       (accepted <==> |SignedKeys(scheme, sig.keys, signatures, |signatures|)| >= sig.threshold))
  }

  /** Acceptance on the scheme's own terms: as many different keys as the threshold, each with a different signature
      that is well-formed and verifies under it. */
  lemma AcceptedIsSigned(scheme: Scheme, sig: MultiSig, signatures: seq<seq<Byte>>) returns (m: map<nat, nat>)
    requires Reaches(scheme, sig, signatures)
    ensures |m| == sig.threshold && forall k, l :: k in m && l in m && k != l ==> m[k] != m[l]
    ensures forall k :: k in m ==> k < |sig.keys| && m[k] < |signatures| && scheme.signatureOk(signatures[m[k]])
                                   && scheme.verifies(sig.keys[k], signatures[m[k]])
  {
    GreedyIsRight(scheme, sig, signatures);
    m :| IsMatching(scheme, sig.keys, signatures, m) && |m| == sig.threshold;
  }

  lemma NoLargerMatching(scheme: Scheme, keys: seq<Key>, signatures: seq<seq<Byte>>, m: map<nat, nat>, size: nat)
    requires Kindred(scheme, keys, signatures) && IsMatching(scheme, keys, signatures, m) && |m| < size
    requires forall t :: 0 <= t < |signatures| ==> Settled(scheme, keys, signatures, t, m)
    ensures !HasMatching(scheme, keys, signatures, size)
  {
    forall other | IsMatching(scheme, keys, signatures, other) ensures |other| != size {
      SettledIsLargest(scheme, keys, signatures, m, other);
    }
  }

  lemma GreedyIsRight(scheme: Scheme, sig: MultiSig, signatures: seq<seq<Byte>>)
    ensures RightAnswer(scheme, sig, signatures, Reaches(scheme, sig, signatures))
  {
    var m := GreedyProgress(scheme, sig.keys, signatures, |signatures|);
    CountIsSize(scheme, sig.keys, signatures, |signatures|);
    assert |m| == |m.Keys|;
    if Reaches(scheme, sig, signatures) {
      MatchingShrinks(scheme, sig.keys, signatures, m, sig.threshold);
    } else if Kindred(scheme, sig.keys, signatures) {
      NoLargerMatching(scheme, sig.keys, signatures, m, sig.threshold);
    }
  }

  lemma {:induction false} CountIsBounded(scheme: Scheme, keys: seq<Key>, signatures: seq<seq<Byte>>, n: nat)
    requires n <= |signatures|
    ensures CountAfter(scheme, keys, signatures, n) <= n
  {
    if n > 0 {
      CountIsBounded(scheme, keys, signatures, n - 1);
    }
  }

  /** One signature's turn. */
  method Serve(scheme: Scheme, keys: seq<Key>, signatures: seq<seq<Byte>>, s: nat, used: set<nat>, count: nat)
    returns (after: set<nat>, total: nat)
    requires s < |signatures| && used == UsedAfter(scheme, keys, signatures, s)
    requires count == CountAfter(scheme, keys, signatures, s)
    ensures after == UsedAfter(scheme, keys, signatures, s + 1) && total == CountAfter(scheme, keys, signatures, s + 1)
  {
    after, total := used, count;
    var found := FindKey(scheme, keys, signatures, s, used);
    if found.Some? {
      after, total := used + {found.value}, count + 1;
    }
  }

  method Verify(scheme: Scheme, sig: MultiSig, signatures: seq<seq<Byte>>) returns (accepted: bool)
    requires 1 <= sig.threshold <= |sig.keys|
    ensures accepted == Reaches(scheme, sig, signatures)
    ensures RightAnswer(scheme, sig, signatures, accepted)
  {
    if |signatures| < sig.threshold {
      CountIsBounded(scheme, sig.keys, signatures, |signatures|);
      accepted := false;
    } else {
      accepted := MatchGreedily(scheme, sig, signatures);
    }
    GreedyIsRight(scheme, sig, signatures);
  }

  method MatchGreedily(scheme: Scheme, sig: MultiSig, signatures: seq<seq<Byte>>) returns (enough: bool)
    requires 1 <= sig.threshold
    ensures enough == Reaches(scheme, sig, signatures)
  {
    var used: set<nat>, count := {}, 0;
    for s := 0 to |signatures|
      invariant used == UsedAfter(scheme, sig.keys, signatures, s)
      invariant count == CountAfter(scheme, sig.keys, signatures, s) < sig.threshold
    {
      used, count := Serve(scheme, sig.keys, signatures, s, used, count);
      if count >= sig.threshold {
        CountGrows(scheme, sig.keys, signatures, s + 1, |signatures|);
        return true;
      }
    }
    return false;
  }

  // ----- the condition is exact

  ghost predicate Drawn<T(!new)>(part: seq<T>, whole: seq<T>) {
    forall i :: 0 <= i < |part| ==> part[i] in whole
  }

  lemma DrawnIsKindred(scheme: Scheme, keys: seq<Key>, signatures: seq<seq<Byte>>, keys': seq<Key>,
                       signatures': seq<seq<Byte>>)
    requires Kindred(scheme, keys, signatures) && Drawn(keys', keys) && Drawn(signatures', signatures)
    ensures Kindred(scheme, keys', signatures')
  {
    forall s, t, k, l | 0 <= s < |signatures'| && 0 <= t < |signatures'| && 0 <= k < |keys'| && 0 <= l < |keys'|
      ensures Signs(scheme, keys', signatures', k, s) && Signs(scheme, keys', signatures', k, t) ==>
                Signs(scheme, keys', signatures', l, s) ==> Signs(scheme, keys', signatures', l, t)
    {
      var s0 :| 0 <= s0 < |signatures| && signatures[s0] == signatures'[s];
      var t0 :| 0 <= t0 < |signatures| && signatures[t0] == signatures'[t];
      var k0 :| 0 <= k0 < |keys| && keys[k0] == keys'[k];
      var l0 :| 0 <= l0 < |keys| && keys[l0] == keys'[l];
      assert Signs(scheme, keys, signatures, k0, s0) == Signs(scheme, keys', signatures', k, s);
      assert Signs(scheme, keys, signatures, k0, t0) == Signs(scheme, keys', signatures', k, t);
      assert Signs(scheme, keys, signatures, l0, s0) == Signs(scheme, keys', signatures', l, s);
      assert Signs(scheme, keys, signatures, l0, t0) == Signs(scheme, keys', signatures', l, t);
    }
  }

  /** Key a signs both, key b only the first: greedy gives a away and rejects, although b and a would do. */
  lemma GreedyMisses(scheme: Scheme, a: Key, b: Key, first: seq<Byte>, second: seq<Byte>)
    requires scheme.signatureOk(first) && scheme.signatureOk(second)
    requires scheme.verifies(a, first) && scheme.verifies(a, second)
    requires scheme.verifies(b, first) && !scheme.verifies(b, second)
    ensures !Reaches(scheme, MultiSig(2, [a, b]), [first, second])
    ensures HasMatching(scheme, [a, b], [first, second], 2)
  {
    var keys, signatures := [a, b], [first, second];
    assert FirstFree(scheme, keys, signatures, 0, {}, 0) == Some(0);
    assert UsedAfter(scheme, keys, signatures, 1) == {0};
    FirstFreeIsLowest(scheme, keys, signatures, 1, {0}, 0, FirstFree(scheme, keys, signatures, 1, {0}, 0));
    assert CountAfter(scheme, keys, signatures, 1) == 1;
    var m: map<nat, nat> := map[0 := 1, 1 := 0];
    assert IsMatching(scheme, keys, signatures, m);
    assert m.Keys == {0, 1} && |m| == |m.Keys|;
  }

  /** Greedy answers rightly on all lists of keys and signatures drawn from these, for all thresholds, if and only if
      the signatures are kindred. */
  lemma GreedyExact(scheme: Scheme, keys: seq<Key>, signatures: seq<seq<Byte>>)
    ensures Kindred(scheme, keys, signatures)
            <==> (forall sig: MultiSig, part | Drawn(sig.keys, keys) && Drawn(part, signatures) ::
                    Reaches(scheme, sig, part) == HasMatching(scheme, sig.keys, part, sig.threshold))
  {
    if Kindred(scheme, keys, signatures) {
      forall sig: MultiSig, part | Drawn(sig.keys, keys) && Drawn(part, signatures)
        ensures Reaches(scheme, sig, part) == HasMatching(scheme, sig.keys, part, sig.threshold)
      {
        DrawnIsKindred(scheme, keys, signatures, sig.keys, part);
        GreedyIsRight(scheme, sig, part);
      }
    } else {
      var sig, part := UnkindredMiss(scheme, keys, signatures);
    }
  }

  lemma UnkindredMiss(scheme: Scheme, keys: seq<Key>, signatures: seq<seq<Byte>>)
    returns (sig: MultiSig, part: seq<seq<Byte>>)
    requires !Kindred(scheme, keys, signatures)
    ensures Drawn(sig.keys, keys) && Drawn(part, signatures)
    ensures !Reaches(scheme, sig, part) && HasMatching(scheme, sig.keys, part, sig.threshold)
  {
    var s, t, k, l :| 0 <= s < |signatures| && 0 <= t < |signatures| && 0 <= k < |keys| && 0 <= l < |keys| &&
      Signs(scheme, keys, signatures, k, s) && Signs(scheme, keys, signatures, k, t) &&
      Signs(scheme, keys, signatures, l, s) && !Signs(scheme, keys, signatures, l, t);
    sig, part := MultiSig(2, [keys[k], keys[l]]), [signatures[s], signatures[t]];
    GreedyMisses(scheme, keys[k], keys[l], signatures[s], signatures[t]);
  }

  /** With one key per signature, the keys used so far are the keys signed so far. */
  lemma UsedAreSigned(scheme: Scheme, keys: seq<Key>, signatures: seq<seq<Byte>>, s: nat, used: set<nat>,
                      found: Option<nat>)
    requires s < |signatures| && OneKeyEach(scheme, keys, signatures)
    requires used == SignedKeys(scheme, keys, signatures, s)
    requires found.Some? ==> found.value < |keys| && found.value !in used
                             && Signs(scheme, keys, signatures, found.value, s)
    requires found == None ==> forall k :: 0 <= k < |keys| && Signs(scheme, keys, signatures, k, s) ==> k in used
    ensures SignedKeys(scheme, keys, signatures, s + 1) == used + (if found.Some? then {found.value} else {})
  {
    forall k: nat | k < |keys|
      ensures HasSignature(scheme, keys, signatures, k, s + 1)
              <==> HasSignature(scheme, keys, signatures, k, s) || Signs(scheme, keys, signatures, k, s)
    {
    }
  }
}
