/** Kind-to-count tallies, Go's `map[string]uint`: a kind that is absent
    counts zero. */
module Tally {

  /** The count a tally reports for `t`. */
  function Count(m: map<string, nat>, t: string): (c: nat) {
    if t in m then m[t] else 0
  }

  /** Go's `m[t] += 1`: the count of `t` goes up by one, no other changes,
      and `t` becomes a key. */
  function Bump(m: map<string, nat>, t: string): (r: map<string, nat>)
    ensures r.Keys == m.Keys + {t}
    ensures forall u :: Count(r, u) == Count(m, u) + (if u == t then 1 else 0)
    ensures forall u :: u in m ==> u in r && r[u] >= m[u]
  {
    m[t := Count(m, t) + 1]
  }

  /** The sum of all counts in a tally. */
  ghost function Total(m: map<string, nat>): nat
    decreases |m|
  {
    if m == map[] then 0
    else
      var t :| t in m;
      assert |(m - {t}).Keys| < |m.Keys| by {
        assert (m - {t}).Keys == m.Keys - {t};
      }
      m[t] + Total(m - {t})
  }

  /** The sum does not depend on which key is taken out first. */
  lemma {:induction false} TotalRemove(m: map<string, nat>, t: string)
    requires t in m
    ensures Total(m) == m[t] + Total(m - {t})
    decreases |m|
  {
    var u :| u in m && Total(m) == m[u] + Total(m - {u});
    if u != t {
      assert (m - {u}).Keys == m.Keys - {u};
      assert (m - {t}).Keys == m.Keys - {t};
      TotalRemove(m - {u}, t);
      TotalRemove(m - {t}, u);
      assert m - {u} - {t} == m - {t} - {u};
    }
  }

  /** Adding one to the count of `t` adds one to the sum. */
  lemma TotalBump(m: map<string, nat>, t: string)
    ensures Total(Bump(m, t)) == Total(m) + 1
  {
    var m' := Bump(m, t);
    TotalRemove(m', t);
    if t in m {
      TotalRemove(m, t);
      assert m' - {t} == m - {t};
    } else {
      assert m' - {t} == m;
    }
  }
}
