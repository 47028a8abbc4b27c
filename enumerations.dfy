/** Duplicate-free sequences that list a finite set of keys: the shape of the
    key order a Go `for k := range m` loop visits, and of the key lists the
    object diff returns, neither of which has a defined order. */
module Enumerations {

  predicate Distinct(s: seq<string>) {
    forall i, j :: 0 <= i < j < |s| ==> s[i] != s[j]
  }

  /** `s` lists every element of `keys` exactly once and nothing else. */
  predicate Enumerates(s: seq<string>, keys: set<string>) {
    && Distinct(s)
    && (forall k :: k in s ==> k in keys)
    && (forall k :: k in keys ==> k in s)
  }

  /** The set of elements a list holds. */
  function Elems(s: seq<string>): (es: set<string>) {
    set k | k in s
  }

  /** Appending a new key to a listing gives a listing of the larger set. */
  lemma EnumeratesAppend(s: seq<string>, keys: set<string>, k: string)
    requires Enumerates(s, keys) && k !in keys
    ensures Enumerates(s + [k], keys + {k})
  {
    forall i, j | 0 <= i < j < |s + [k]| ensures (s + [k])[i] != (s + [k])[j] {
      if j == |s| {
        assert s[i] in keys;
      }
    }
  }

  /** A listing is exactly as long as the set it lists. */
  lemma {:induction false} EnumeratesLength(s: seq<string>, keys: set<string>)
    requires Enumerates(s, keys)
    ensures |s| == |keys|
  {
    if s == [] {
      assert keys == {};
    } else {
      var rest := keys - {s[0]};
      assert Enumerates(s[1..], rest) by {
        forall k ensures k in s[1..] <==> k in rest {
          if k in s[1..] {
            var i :| 1 <= i < |s| && s[i] == k;
            assert s[0] != s[i];
          }
          if k in rest {
            assert k in s;
            var i :| 0 <= i < |s| && s[i] == k;
            assert i != 0;
            assert s[1..][i - 1] == k;
          }
        }
      }
      EnumeratesLength(s[1..], rest);
    }
  }

  /** Only the empty list lists the empty set. */
  lemma EnumeratesEmpty(s: seq<string>)
    requires Enumerates(s, {})
    ensures s == []
  {
    EnumeratesLength(s, {});
  }

  /** In a duplicate-free list every element occurs once. */
  lemma {:induction false} DistinctMultiplicity(s: seq<string>, k: string)
    requires Distinct(s)
    ensures multiset(s)[k] == if k in s then 1 else 0
  {
    if s != [] {
      assert s == [s[0]] + s[1..];
      DistinctMultiplicity(s[1..], k);
      if k == s[0] {
        assert k !in s[1..] by {
          forall i | 1 <= i < |s| ensures s[i] != k { assert s[0] != s[i]; }
        }
      }
    }
  }

  /** Two listings of the same set are permutations of each other. */
  lemma EnumerationsArePermutations(s: seq<string>, t: seq<string>, keys: set<string>)
    requires Enumerates(s, keys) && Enumerates(t, keys)
    ensures multiset(s) == multiset(t)
  {
    forall k ensures multiset(s)[k] == multiset(t)[k] {
      DistinctMultiplicity(s, k);
      DistinctMultiplicity(t, k);
    }
  }
}
