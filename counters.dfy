/**
  Counters as `emby_exporter.py` keeps them: dictionaries from a label value
  to a count, raised one occurrence at a time. `Raise` is the reference
  meaning of counting a multiset of values into a counter.
*/
module Counters {
  import opened LabelTree

  /** A counter's value for `k`; an absent key counts 0. */
  function Count<K>(m: map<K, int>, k: K): int
  {
    if k in m then m[k] else 0
  }

  /**
    The counter `acc` raised by `ms`: each key by its multiplicity in `ms`,
    keys of `ms` not yet counted starting from 0, other keys unchanged.
  */
  function Raise(acc: map<Label, int>, ms: multiset<Label>): map<Label, int>
  {
    map k | k in acc.Keys + (set x | x in ms) :: Count(acc, k) + ms[k]
  }

  lemma RaiseAt(acc: map<Label, int>, ms: multiset<Label>, k: Label)
    ensures k in Raise(acc, ms) <==> k in acc || k in ms
    ensures Count(Raise(acc, ms), k) == Count(acc, k) + ms[k]
  {
  }

  /** The counter that counts exactly the elements of `ms`; it has no key that counts 0. */
  function Tally(ms: multiset<Label>): map<Label, int>
  {
    Raise(map[], ms)
  }

  lemma RaiseStep(acc: map<Label, int>, ms: multiset<Label>, x: Label)
    ensures Raise(acc, ms + multiset{x}) == Raise(acc, ms)[x := Count(Raise(acc, ms), x) + 1]
  {
    var l := Raise(acc, ms + multiset{x});
    var r := Raise(acc, ms)[x := Count(Raise(acc, ms), x) + 1];
    forall k ensures k in l <==> k in r {
      RaiseAt(acc, ms + multiset{x}, k);
      RaiseAt(acc, ms, k);
    }
    forall k | k in l ensures l[k] == r[k] {
      RaiseAt(acc, ms + multiset{x}, k);
      RaiseAt(acc, ms, k);
    }
  }

  /** Raising by `a` and then by `b` is raising by both at once. */
  lemma RaiseAdd(acc: map<Label, int>, a: multiset<Label>, b: multiset<Label>)
    ensures Raise(Raise(acc, a), b) == Raise(acc, a + b)
  {
    var l := Raise(Raise(acc, a), b);
    var r := Raise(acc, a + b);
    forall k ensures k in l <==> k in r {
      RaiseAt(Raise(acc, a), b, k);
      RaiseAt(acc, a, k);
      RaiseAt(acc, a + b, k);
    }
    forall k | k in l ensures l[k] == r[k] {
      RaiseAt(Raise(acc, a), b, k);
      RaiseAt(acc, a, k);
      RaiseAt(acc, a + b, k);
    }
  }

  /** The sum of a counter's values. */
  ghost function Total(m: map<Label, int>): int
    decreases |m.Keys|
  {
    if m == map[] then 0
    else
      var k :| k in m;
      assert |(m - {k}).Keys| < |m.Keys| by {
        assert (m - {k}).Keys == m.Keys - {k};
      }
      m[k] + Total(m - {k})
  }

  lemma {:induction false} TotalRemove(m: map<Label, int>, k: string)
    requires k in m
    ensures Total(m) == m[k] + Total(m - {k})
    decreases |m.Keys|
  {
    var j :| j in m && Total(m) == m[j] + Total(m - {j});
    if j != k {
      assert (m - {j}).Keys == m.Keys - {j};
      assert (m - {k}).Keys == m.Keys - {k};
      TotalRemove(m - {j}, k);
      TotalRemove(m - {k}, j);
      assert m - {j} - {k} == m - {k} - {j};
    }
  }

  /** Raising one count by 1 (from 0 when it is absent) raises the total by 1. */
  lemma TotalBump(m: map<Label, int>, x: Label)
    ensures Total(m[x := Count(m, x) + 1]) == Total(m) + 1
  {
    var m' := m[x := Count(m, x) + 1];
    TotalRemove(m', x);
    if x in m {
      TotalRemove(m, x);
      assert m' - {x} == m - {x};
    } else {
      assert m' - {x} == m;
    }
  }

  /** Raising by no values leaves a counter as it is. */
  lemma RaiseNothing(acc: map<Label, int>)
    ensures Raise(acc, multiset{}) == acc
  {
    var r := Raise(acc, multiset{});
    assert r.Keys == acc.Keys;
  }

  /** Counting the values of `s` into a counter raises its total by `|s|`. */
  lemma {:induction false} RaiseTotal(acc: map<Label, int>, s: seq<Label>)
    ensures Total(Raise(acc, multiset(s))) == Total(acc) + |s|
    decreases |s|
  {
    if s == [] {
      RaiseNothing(acc);
    } else {
      var s' := s[..|s| - 1];
      var x := s[|s| - 1];
      assert s == s' + [x];
      var before := Raise(acc, multiset(s'));
      calc {
        Total(Raise(acc, multiset(s)));
        { assert multiset(s) == multiset(s') + multiset{x}; }
        Total(Raise(acc, multiset(s') + multiset{x}));
        { RaiseStep(acc, multiset(s'), x); }
        Total(before[x := Count(before, x) + 1]);
        { TotalBump(before, x); }
        Total(before) + 1;
        { RaiseTotal(acc, s'); }
        Total(acc) + |s'| + 1;
      }
    }
  }
}
