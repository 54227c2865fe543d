/**
 * The closed list of seat numbers and the ascending order in which every
 * listing, export and grid walks the seats (Python's `sorted(...)`).
 */
module Seats {

  /** `VALID_KEYS`: the 52 seat numbers the tool accepts, one group per source line. */
  const ValidKeys: seq<int> :=
    [1, 2, 5, 8, 10, 11, 12, 13, 14, 15, 17, 18, 19, 20] +
    [23, 24, 25, 26, 27, 28, 30, 31, 32, 33, 34, 35, 36, 37, 38] +
    [40, 41, 42, 43, 44, 45, 46, 47, 49, 50, 51, 52, 53] +
    [55, 56, 57, 58, 59, 60, 61, 62, 63, 64]

  /** The same seats as a set: the test `key in VALID_KEYS`. */
  const ValidKeySet: set<int> := set k | k in ValidKeys

  /** Strictly ascending: sorted and without repeats. */
  predicate Increasing(s: seq<int>)
  {
    forall i, j :: 0 <= i < j < |s| ==> s[i] < s[j]
  }

  /** Neighbour-wise ascent: the same property as `Increasing`, stated on
      adjacent entries only, which is cheap to check on the literal list. It
      serves only as the proof step towards `ValidKeysShape`. */
  predicate Ascending(s: seq<int>)
  {
    forall i :: 0 < i < |s| ==> s[i - 1] < s[i]
  }

  lemma {:induction false} AscendingIsIncreasing(s: seq<int>)
    requires Ascending(s)
    ensures Increasing(s)
  {
    if |s| > 1 {
      AscendingIsIncreasing(s[1..]);
      assert forall j :: 1 <= j < |s| ==> s[0] < s[1] <= s[j] by {
        forall j | 1 < j < |s| ensures s[1] < s[j] {
          assert s[1..][0] < s[1..][j - 1];
        }
      }
      forall i, j | 0 <= i < j < |s| ensures s[i] < s[j] {
        if i > 0 {
          assert s[1..][i - 1] < s[1..][j - 1];
        }
      }
    }
  }

  /** The seat list is already in ascending order and has 52 entries. */
  lemma ValidKeysShape()
    ensures |ValidKeys| == 52 && Increasing(ValidKeys)
  {
    assert Ascending(ValidKeys);
    AscendingIsIncreasing(ValidKeys);
  }

  /** A number strictly between two neighbouring seats is not a seat. */
  lemma NotListedBetween(k: int, i: nat)
    requires 0 < i < |ValidKeys| && ValidKeys[i - 1] < k < ValidKeys[i]
    ensures k !in ValidKeySet
  {
    ValidKeysShape();
    forall j | 0 <= j < |ValidKeys|
      ensures ValidKeys[j] != k
    {
      if j < i {
        assert ValidKeys[j] <= ValidKeys[i - 1];
      } else {
        assert ValidKeys[i] <= ValidKeys[j];
      }
    }
  }

  /** Every seat number has two digits at most: it lies between 1 and 64. */
  lemma ValidKeysRange()
    ensures forall k :: k in ValidKeySet ==> 1 <= k <= 64
  {
    ValidKeysShape();
    assert ValidKeys[0] == 1 && ValidKeys[51] == 64;
  }

  /** A sequence without repeats has as many distinct elements as entries. */
  lemma {:induction false} IncreasingCard(s: seq<int>)
    requires Increasing(s)
    ensures |set k | k in s| == |s|
  {
    if s != [] {
      var rest := s[1..];
      IncreasingCard(rest);
      assert s[0] !in rest;
      assert (set k | k in s) == {s[0]} + (set k | k in rest);
    }
  }

  /** `len(VALID_KEYS)` is the number of distinct seats: 52. */
  lemma ValidKeySetSize()
    ensures |ValidKeySet| == 52
  {
    ValidKeysShape();
    IncreasingCard(ValidKeys);
  }

  /** A least element of a non-empty finite set of integers. */
  lemma Least(s: set<int>) returns (least: int)
    requires s != {}
    ensures least in s && forall x :: x in s ==> least <= x
    decreases s
  {
    if forall y :: y !in s {
      assert false;
    }
    var y :| y in s;
    var rest := s - {y};
    if rest == {} {
      least := y;
      forall x | x in s ensures least <= x {
        assert x !in rest;
      }
    } else {
      var m := Least(rest);
      least := if y < m then y else m;
      forall x | x in s ensures least <= x {
        if x != y {
          assert x in rest;
        }
      }
    }
  }

  lemma HasLeast(s: set<int>)
    requires s != {}
    ensures exists m :: m in s && forall x :: x in s ==> m <= x
  {
    var m := Least(s);
  }

  lemma PrependIncreasing(m: int, rest: seq<int>)
    requires Increasing(rest)
    requires forall k :: k in rest ==> m < k
    ensures Increasing([m] + rest)
  {
    var r := [m] + rest;
    forall i, j | 0 <= i < j < |r| ensures r[i] < r[j] {
      assert r[j] == rest[j - 1];
      if i > 0 {
        assert r[i] == rest[i - 1];
      } else {
        assert rest[j - 1] in rest;
      }
    }
  }

  /** `sorted(keys)`: the keys of a dictionary in ascending order. */
  function SortedKeys(keys: set<int>): (r: seq<int>)
    ensures Increasing(r)
    ensures forall k :: k in r <==> k in keys
    ensures |r| == |keys|
    decreases keys
  {
    if keys == {} then []
    else
      HasLeast(keys);
      var m :| m in keys && forall x :: x in keys ==> m <= x;
      var rest := SortedKeys(keys - {m});
      PrependIncreasing(m, rest);
      PrependLeast(m, keys, rest);
      [m] + rest
  }

  lemma PrependLeast(m: int, keys: set<int>, rest: seq<int>)
    requires m in keys
    requires forall k :: k in rest <==> k in keys - {m}
    requires |rest| == |keys - {m}|
    ensures forall k :: k in [m] + rest <==> k in keys
    ensures |[m] + rest| == |keys|
  {
    assert keys == (keys - {m}) + {m};
  }

  lemma HeadIsLeast(a: seq<int>, k: int)
    requires Increasing(a) && k in a
    ensures a[0] <= k
  {
  }

  /** Two ascending listings of the same elements start alike and go on alike. */
  lemma SameHeadSameTail(a: seq<int>, b: seq<int>)
    requires Increasing(a) && Increasing(b) && |a| > 0 && |b| > 0
    requires forall k :: k in a <==> k in b
    ensures a[0] == b[0]
    ensures forall k :: k in a[1..] <==> k in b[1..]
  {
    assert a[0] in a && b[0] in b;
    HeadIsLeast(a, b[0]);
    HeadIsLeast(b, a[0]);
    forall k | k in a[1..] ensures k in b[1..] {
      var i :| 0 <= i < |a[1..]| && a[1..][i] == k;
      assert a[i + 1] == k && k != a[0];
      assert k in a && k in b;
      var j :| 0 <= j < |b| && b[j] == k;
      assert j > 0 && b[1..][j - 1] == k;
    }
    forall k | k in b[1..] ensures k in a[1..] {
      var j :| 0 <= j < |b[1..]| && b[1..][j] == k;
      assert b[j + 1] == k && k != b[0];
      assert k in b && k in a;
      var i :| 0 <= i < |a| && a[i] == k;
      assert i > 0 && a[1..][i - 1] == k;
    }
  }

  /** A finite set has exactly one strictly ascending listing. */
  lemma {:induction false} SortedUnique(a: seq<int>, b: seq<int>)
    requires Increasing(a) && Increasing(b)
    requires forall k :: k in a <==> k in b
    ensures a == b
  {
    IncreasingCard(a);
    IncreasingCard(b);
    assert (set k | k in a) == (set k | k in b);
    if |a| > 0 {
      SameHeadSameTail(a, b);
      SortedUnique(a[1..], b[1..]);
      assert a == [a[0]] + a[1..] && b == [b[0]] + b[1..];
    }
  }

  /** `sorted(VALID_KEYS)` is `VALID_KEYS` itself. */
  lemma SortedValidKeys()
    ensures SortedKeys(ValidKeySet) == ValidKeys
  {
    ValidKeysShape();
    SortedUnique(SortedKeys(ValidKeySet), ValidKeys);
  }
}
