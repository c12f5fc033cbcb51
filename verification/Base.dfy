/** Shared vocabulary: machine widths, identifiers, and sums over finite maps. */
module Base {

  datatype Option<+T> = None | Some(value: T)

  type Byte = b: int | 0 <= b < 256

  /** 32-byte hashes and addresses are only ever compared, so they are identifiers; the all-zero array is 0. */
  type Hash = int
  type Address = int

  const ZERO_HASH: Hash := 0
  const U64_MAX: nat := 0xFFFF_FFFF_FFFF_FFFF
  const U128_MAX: nat := 0xFFFF_FFFF_FFFF_FFFF_FFFF_FFFF_FFFF_FFFF

  function Min(a: nat, b: nat): nat {
    if a <= b then a else b
  }

  /** The sum of all values of a finite map. */
  ghost function Sum<K>(m: map<K, nat>): nat {
    if m == map[] then 0
    else
      var k :| k in m;
      m[k] + Sum(m - {k})
  }

  /** Any key may be taken out first. */
  lemma {:induction false} SumTake<K>(m: map<K, nat>, k: K)
    requires k in m
    ensures Sum(m) == m[k] + Sum(m - {k})
    decreases |m|
  {
    var first :| first in m && Sum(m) == m[first] + Sum(m - {first});
    if first != k {
      SumTake(m - {first}, k);
      SumTake(m - {k}, first);
      assert m - {first} - {k} == m - {k} - {first};
    }
  }

  /** Overwriting one entry changes the sum by the difference of the two values. */
  lemma SumUpdate<K>(m: map<K, nat>, k: K, v: nat)
    ensures Sum(m[k := v]) == Sum(m) - (if k in m then m[k] else 0) + v
  {
    SumTake(m[k := v], k);
    assert m[k := v] - {k} == m - {k};
    if k in m {
      SumTake(m, k);
    } else {
      assert m - {k} == m;
    }
  }

  /** A sum dominates the sum of any two distinct entries. */
  lemma SumDominates<K>(m: map<K, nat>, k: K, l: K)
    requires k in m && l in m && k != l
    ensures m[k] + m[l] <= Sum(m)
  {
    SumTake(m, k);
    SumTake(m - {k}, l);
  }

  ghost predicate Distinct<T>(xs: seq<T>) {
    forall i, j :: 0 <= i < j < |xs| ==> xs[i] != xs[j]
  }

  ghost function Elements<T>(xs: seq<T>): set<T> {
    set x | x in xs
  }

  lemma ElementsAppend<T>(xs: seq<T>, x: T)
    ensures Elements(xs + [x]) == Elements(xs) + {x}
  {}

  /** One step of an iteration over distinct elements. */
  lemma NextElement<T>(xs: seq<T>, k: nat)
    requires k < |xs| && Distinct(xs)
    ensures xs[k] in Elements(xs) && xs[k] !in Elements(xs[..k])
    ensures Elements(xs[..k + 1]) == Elements(xs[..k]) + {xs[k]}
  {
    assert xs[..k + 1] == xs[..k] + [xs[k]];
  }

  /** Iterating over a hash set or over the keys of a hash map: each member once, in some order. */
  method Listing<T(==)>(s: set<T>) returns (xs: seq<T>)
    ensures Elements(xs) == s && Distinct(xs)
  {
    xs := [];
    var rest := s;
    while rest != {}
      invariant rest <= s && Elements(xs) == s - rest && Distinct(xs)
      decreases rest
    {
      var x :| x in rest;
      ElementsAppend(xs, x);
      assert forall i :: 0 <= i < |xs| ==> xs[i] in Elements(xs);
      xs, rest := xs + [x], rest - {x};
    }
  }

  ghost predicate Ascending(xs: seq<nat>) {
    forall i, j :: 0 <= i < j < |xs| ==> xs[i] < xs[j]
  }

  method Least(keys: set<nat>) returns (least: nat)
    requires keys != {}
    ensures least in keys && forall y :: y in keys ==> least <= y
  {
    least :| least in keys;
    var rest := keys - {least};
    while rest != {}
      invariant least in keys && rest <= keys
      invariant forall y :: y in keys && y !in rest ==> least <= y
      decreases rest
    {
      var y :| y in rest;
      if y < least {
        least := y;
      }
      rest := rest - {y};
    }
  }

  /** The members of a set in ascending order. */
  method Sorted(keys: set<nat>) returns (xs: seq<nat>)
    ensures Ascending(xs) && Elements(xs) == keys
  {
    xs := [];
    var rest := keys;
    while rest != {}
      invariant Ascending(xs) && rest <= keys && Elements(xs) == keys - rest
      invariant forall i, y :: 0 <= i < |xs| && y in rest ==> xs[i] < y
      decreases rest
    {
      var least := Least(rest);
      assert Elements(xs + [least]) == Elements(xs) + {least};
      xs, rest := xs + [least], rest - {least};
    }
  }

  lemma {:induction false} AscendingSize(xs: seq<nat>)
    requires Ascending(xs)
    ensures |Elements(xs)| == |xs|
  {
    if xs != [] {
      AscendingSize(xs[1..]);
      assert Elements(xs) == {xs[0]} + Elements(xs[1..]);
    }
  }

  lemma SubsetSize<T>(a: set<T>, b: set<T>)
    requires a <= b
    ensures |a| <= |b|
  {
    assert b == a + (b - a);
  }
}
