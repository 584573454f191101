/**
  The three gauge wrappers of metrics.py. Each object owns its gauge, modelled
  as fields of the object: the value of an unlabelled gauge, or a map from
  label tuple to value for a labelled one. `MetricLabels` also records, as a
  ghost trace, every gauge set it makes, in order.
*/
module Metrics {
  import opened LabelTree

  /** `name.replace('_', ' ')`, the description used when none is given. */
  function DefaultDescription(name: string): (d: string)
    ensures |d| == |name|
    ensures forall i :: 0 <= i < |name| ==> d[i] == if name[i] == '_' then ' ' else name[i]
  {
    if name == [] then [] else [if name[0] == '_' then ' ' else name[0]] + DefaultDescription(name[1..])
  }

  function DescriptionOr(description: Option<string>, name: string): string
  {
    if description.Some? then description.value else DefaultDescription(name)
  }

  lemma AppendNoDup(s: seq<Label>, l: Label)
    requires NoDup(s) && l !in s
    ensures NoDup(s + [l])
  {
  }

  /** The entries of `m` whose keys are in `ks`. */
  function Restrict(m: map<Label, int>, ks: set<Label>): map<Label, int>
  {
    map k | k in ks && k in m :: m[k]
  }

  lemma RestrictStep(a: map<Label, int>, m: map<Label, int>, ks: set<Label>, l: Label)
    requires l in m
    ensures (a + Restrict(m, ks))[l := m[l]] == a + Restrict(m, ks + {l})
  {
  }

  // ---------------------------------------------------------------------
  // metric: an unlabelled gauge
  // ---------------------------------------------------------------------

  class Metric {
    const name: string
    const description: string
    /** The attribute `self.value`; absent until a value is first given. */
    var value: Option<int>
    /** The gauge's current value; a new gauge reads 0. */
    var gauge: int

    constructor (name: string, value: Option<int>, description: Option<string>)
      ensures this.name == name && this.description == DescriptionOr(description, name)
      ensures this.value == value
      ensures gauge == if value.Some? then value.value else 0
    {
      this.name := name;
      this.description := DescriptionOr(description, name);
      this.value := value;
      gauge := if value.Some? then value.value else 0;
    }

    method UpdateValue(v: int)
      modifies this
      ensures value == Some(v) && gauge == v
    {
      value := Some(v);
      gauge := v;
    }
  }

  // ---------------------------------------------------------------------
  // metric_label: a gauge with one label
  // ---------------------------------------------------------------------

  class MetricLabel {
    const name: string
    const labelName: Label
    const description: string
    /** The last value given for each label; never zeroed. */
    var values: map<Label, int>
    /** Every label value ever seen, in first-seen order. */
    var labelValues: seq<Label>
    /** The gauge: one series per label value. */
    var series: map<Label, int>

    ghost predicate Valid()
      reads this
    {
      && NoDup(labelValues)
      && (forall l :: l in values <==> l in labelValues)
      && (forall l :: l in series <==> l in labelValues)
    }

    constructor (name: string, labelName: Label, value: Option<map<Label, int>>, description: Option<string>)
      ensures Valid()
      ensures this.name == name && this.labelName == labelName && this.description == DescriptionOr(description, name)
      ensures value.None? ==> values == map[] && labelValues == [] && series == map[]
      ensures value.Some? ==> values == value.value && series == value.value
    {
      this.name := name;
      this.labelName := labelName;
      this.description := DescriptionOr(description, name);
      values := map[];
      labelValues := [];
      series := map[];
      new;
      if value.Some? {
        UpdateValue(value.value);
      }
    }

    /**
      `update_value`: sets every label of `value` to its value, appends the
      labels not seen before, then sets every previously seen label missing
      from `value` to 0 on the gauge (but not in `values`).
    */
    method UpdateValue(value: map<Label, int>)
      requires Valid()
      modifies this
      ensures Valid()
      ensures values == old(values) + value
      ensures series.Keys == old(series).Keys + value.Keys
      ensures forall l :: l in series ==> series[l] == if l in value then value[l] else 0
      ensures |old(labelValues)| <= |labelValues| && labelValues[..|old(labelValues)|] == old(labelValues)
      ensures forall l :: l in labelValues <==> l in old(labelValues) || l in value
    {
      SetLabels(value);
      ZeroAbsent(value);
    }

    /** The first loop of `update_value`: set and record every label of `value`. */
    method SetLabels(value: map<Label, int>)
      requires Valid()
      modifies this
      ensures Valid()
      ensures values == old(values) + value
      ensures series == old(series) + value
      ensures |old(labelValues)| <= |labelValues| && labelValues[..|old(labelValues)|] == old(labelValues)
      ensures forall l :: l in labelValues <==> l in old(labelValues) || l in value
    {
      var todo := value.Keys;
      ghost var added: seq<Label> := [];
      while todo != {}
        invariant todo <= value.Keys
        invariant labelValues == old(labelValues) + added
        invariant NoDup(labelValues)
        invariant forall l :: l in labelValues <==> l in old(labelValues) || (l in value && l !in todo)
        invariant values == old(values) + Restrict(value, value.Keys - todo)
        invariant series == old(series) + Restrict(value, value.Keys - todo)
        decreases todo
      {
        var l :| l in todo;
        RestrictStep(old(values), value, value.Keys - todo, l);
        RestrictStep(old(series), value, value.Keys - todo, l);
        assert value.Keys - (todo - {l}) == (value.Keys - todo) + {l};
        values := values[l := value[l]];
        series := series[l := value[l]];
        if l !in labelValues {
          AppendNoDup(labelValues, l);
          labelValues := labelValues + [l];
          added := added + [l];
        }
        todo := todo - {l};
      }
      assert Restrict(value, value.Keys - todo) == value;
    }

    /** The second loop of `update_value`: every seen label missing from `value` is set to 0. */
    method ZeroAbsent(value: map<Label, int>)
      requires Valid()
      modifies this`series
      ensures Valid()
      ensures series.Keys == old(series).Keys
      ensures forall l :: l in series ==> series[l] == if l in value then old(series)[l] else 0
    {
      var i := 0;
      while i < |labelValues|
        invariant 0 <= i <= |labelValues|
        invariant series.Keys == old(series).Keys
        invariant forall l :: l in series ==>
                    series[l] == if l !in value && l in labelValues[..i] then 0 else old(series)[l]
      {
        var l := labelValues[i];
        if l !in value {
          series := series[l := 0];
        }
        assert labelValues[..i + 1] == labelValues[..i] + [l];
        i := i + 1;
      }
      assert labelValues[..i] == labelValues;
    }
  }

  // ---------------------------------------------------------------------
  // metric_labels: a gauge with a label tree
  // ---------------------------------------------------------------------

  /** The leaf of `t` reached by `p`, when `p` starts with `prefix`. */
  ghost function ValueBelow(t: Tree, prefix: Path, p: Path): Option<int>
  {
    if |prefix| <= |p| && p[..|prefix|] == prefix then ValueAt(t, p[|prefix|..]) else None
  }

  /** As `ValueBelow(Node(m), prefix, p)`, restricted to paths whose next key is in `ks`. */
  ghost function ValueBelowKeys(m: map<Label, Tree>, ks: set<Label>, prefix: Path, p: Path): Option<int>
  {
    if |prefix| < |p| && p[..|prefix|] == prefix && p[|prefix|] in ks && p[|prefix|] in m
    then ValueAt(m[p[|prefix|]], p[|prefix| + 1..])
    else None
  }

  /** The label tuples of a sequence of gauge sets. */
  ghost function PathsOf(e: seq<(Path, int)>): set<Path>
  {
    if e == [] then {} else PathsOf(e[..|e| - 1]) + {e[|e| - 1].0}
  }

  /**
    `e` is one gauge set per leaf below `prefix`: every set is a leaf's path
    and value, no path is set twice, and every leaf is set.
  */
  ghost predicate OnePerLeaf(e: seq<(Path, int)>, t: Tree, prefix: Path)
  {
    && (forall i :: 0 <= i < |e| ==> ValueBelow(t, prefix, e[i].0) == Some(e[i].1))
    && (forall i, j :: 0 <= i < j < |e| ==> e[i].0 != e[j].0)
    && (forall p :: ValueBelow(t, prefix, p).Some? ==> p in PathsOf(e))
  }

  ghost predicate OnePerLeafKeys(e: seq<(Path, int)>, m: map<Label, Tree>, ks: set<Label>, prefix: Path)
  {
    && (forall i :: 0 <= i < |e| ==> ValueBelowKeys(m, ks, prefix, e[i].0) == Some(e[i].1))
    && (forall i, j :: 0 <= i < j < |e| ==> e[i].0 != e[j].0)
    && (forall p :: ValueBelowKeys(m, ks, prefix, p).Some? ==> p in PathsOf(e))
  }

  lemma {:induction false} PathsOfAppend(e: seq<(Path, int)>, f: seq<(Path, int)>)
    ensures PathsOf(e + f) == PathsOf(e) + PathsOf(f)
    decreases |f|
  {
    if f == [] {
      assert e + f == e;
    } else {
      var f' := f[..|f| - 1];
      assert (e + f)[..|e + f| - 1] == e + f';
      PathsOfAppend(e, f');
    }
  }

  /** A label tuple is among the sets of `e` exactly when some set of `e` carries it. */
  lemma {:induction false} PathsOfIn(e: seq<(Path, int)>, p: Path)
    ensures p in PathsOf(e) <==> exists i :: 0 <= i < |e| && e[i].0 == p
  {
    if e != [] {
      var init := e[..|e| - 1];
      PathsOfIn(init, p);
      if p in PathsOf(init) {
        var i :| 0 <= i < |init| && init[i].0 == p;
        assert e[i] == init[i];
      }
      if exists i :: 0 <= i < |e| && e[i].0 == p {
        var i :| 0 <= i < |e| && e[i].0 == p;
        if i < |init| {
          assert init[i] == e[i];
        }
      }
    }
  }

  /** Two walks that each set every leaf of `t` once make the same gauge sets, in whatever order. */
  lemma SameEmissions(e: seq<(Path, int)>, f: seq<(Path, int)>, t: Tree, prefix: Path)
    requires OnePerLeaf(e, t, prefix) && OnePerLeaf(f, t, prefix)
    ensures forall x :: x in e <==> x in f
  {
    forall x | x in e ensures x in f {
      PathsOfIn(f, x.0);
    }
    forall x | x in f ensures x in e {
      PathsOfIn(e, x.0);
    }
  }

  /**
    Updating with the same snapshot twice: the stored tree does not change and
    the second update makes the same gauge sets as the first.
  */
  lemma EmissionsIdempotent(o: map<Label, Tree>, n: map<Label, Tree>, d: nat,
                            e1: seq<(Path, int)>, e2: seq<(Path, int)>)
    requires Shaped(Node(o), d) && Shaped(Node(n), d)
    requires OnePerLeaf(e1, Node(Reconcile(o, n)), [])
    requires OnePerLeaf(e2, Node(Reconcile(Reconcile(o, n), n)), [])
    ensures Reconcile(Reconcile(o, n), n) == Reconcile(o, n)
    ensures forall x :: x in e1 <==> x in e2
  {
    ReconcileIdempotent(o, n, d);
    SameEmissions(e1, e2, Node(Reconcile(o, n)), []);
  }

  lemma BelowRoot(t: Tree, p: Path)
    ensures ValueBelow(t, [], p) == ValueAt(t, p)
  {
    assert p[..0] == [] && p[0..] == p;
  }

  lemma BelowLeaf(v: int, path: Path, p: Path)
    ensures ValueBelow(Leaf(v), path, p) == if p == path then Some(v) else None
  {
    if |path| <= |p| && p[..|path|] == path && p[|path|..] == [] {
      assert p == p[..|path|] + p[|path|..];
    }
  }

  /** Adding key `k` to the keys walked so far adds exactly the leaves below `prefix + [k]`. */
  lemma BelowStep(m: map<Label, Tree>, ks: set<Label>, k: Label, prefix: Path, p: Path)
    requires k in m && k !in ks
    ensures ValueBelowKeys(m, ks + {k}, prefix, p)
            == if ValueBelow(m[k], prefix + [k], p).Some? then ValueBelow(m[k], prefix + [k], p)
               else ValueBelowKeys(m, ks, prefix, p)
  {
    var n := |prefix|;
    if n < |p| {
      assert p[..n + 1] == p[..n] + [p[n]];
      assert p[..n + 1] == prefix + [k] ==> p[..n] == prefix && p[n] == k by {
        if p[..n + 1] == prefix + [k] {
          assert p[..n] == p[..n + 1][..n] && p[n] == p[..n + 1][n];
        }
      }
    }
  }

  lemma BelowAllKeys(m: map<Label, Tree>, prefix: Path, p: Path)
    ensures ValueBelowKeys(m, m.Keys, prefix, p) == ValueBelow(Node(m), prefix, p)
  {
    var n := |prefix|;
    if n < |p| && p[..n] == prefix {
      var q := p[n..];
      assert q[0] == p[n] && q[1..] == p[n + 1..];
    }
  }

  /** Joining the sets made for the keys walked so far with the sets made for key `k`. */
  lemma {:induction false} CombineSets(e: seq<(Path, int)>, f: seq<(Path, int)>,
                                       m: map<Label, Tree>, ks: set<Label>, k: Label, prefix: Path)
    requires k in m && k !in ks
    requires OnePerLeafKeys(e, m, ks, prefix)
    requires OnePerLeaf(f, m[k], prefix + [k])
    ensures OnePerLeafKeys(e + f, m, ks + {k}, prefix)
  {
    var ks' := ks + {k};
    forall p ensures ValueBelowKeys(m, ks', prefix, p)
                     == if ValueBelow(m[k], prefix + [k], p).Some? then ValueBelow(m[k], prefix + [k], p)
                        else ValueBelowKeys(m, ks, prefix, p)
    {
      BelowStep(m, ks, k, prefix, p);
    }
    // A path set for key k never has a key of ks at that position.
    forall p | ValueBelow(m[k], prefix + [k], p).Some?
      ensures ValueBelowKeys(m, ks, prefix, p).None?
    {
      assert p[..|prefix| + 1] == prefix + [k];
      assert p[|prefix|] == k;
    }
    PathsOfAppend(e, f);
    var g := e + f;
    forall i | 0 <= i < |g| ensures ValueBelowKeys(m, ks', prefix, g[i].0) == Some(g[i].1) {
      if i >= |e| {
        assert g[i] == f[i - |e|];
      }
    }
    forall i, j | 0 <= i < j < |g| ensures g[i].0 != g[j].0 {
      if i < |e| && j >= |e| {
        assert g[j] == f[j - |e|];
        assert ValueBelowKeys(m, ks, prefix, g[i].0).Some?;
      } else if i >= |e| {
        assert g[i] == f[i - |e|] && g[j] == f[j - |e|];
      }
    }
  }

  class MetricLabels {
    const name: string
    const labels: seq<Label>
    const description: string
    /** The stored label tree, `self.values`. */
    var values: map<Label, Tree>
    /** The gauge: one series per label tuple ever set. */
    var series: map<Path, int>
    /** Every gauge set made, in order. */
    ghost var trace: seq<(Path, int)>

    /** The tree has the depth of the label schema and the gauge holds exactly its leaves. */
    ghost predicate Valid()
      reads this
    {
      && |labels| >= 1
      && Shaped(Node(values), |labels|)
      && forall p :: Get(series, p) == ValueAt(Node(values), p)
    }

    constructor (name: string, labels: seq<Label>, values: Option<Snapshot>, description: Option<string>)
      requires |labels| >= 1
      requires values.Some? ==> Fits(values.value, |labels|)
      ensures Valid()
      ensures this.name == name && this.labels == labels && this.description == DescriptionOr(description, name)
      ensures values.None? ==> this.values == map[] && series == map[] && trace == []
      ensures values.Some? ==> this.values == Reconcile(map[], Normalize(values.value))
    {
      this.name := name;
      this.labels := labels;
      this.description := DescriptionOr(description, name);
      this.values := map[];
      series := map[];
      trace := [];
      new;
      if values.Some? {
        UpdateValue(values.value);
      }
    }

    /** `__zero_missing_value` as intended: every leaf below `t` set to 0. */
    static method ZeroMissingValue(t: Tree) returns (r: Tree)
      ensures r == ZeroAll(t)
      decreases t
    {
      match t {
        case Leaf(_) =>
          r := Leaf(0);
        case Node(m) =>
          var acc := m;
          var todo := m.Keys;
          while todo != {}
            invariant todo <= m.Keys
            invariant acc.Keys == m.Keys
            invariant forall k :: k in acc ==> acc[k] == if k in todo then m[k] else ZeroAll(m[k])
            decreases todo
          {
            var k :| k in todo;
            var z := ZeroMissingValue(acc[k]);
            acc := acc[k := z];
            todo := todo - {k};
          }
          r := Node(acc);
      }
    }

    /** `update_old_values`: walks the stored keys, zeroing those missing from `n`. */
    static method UpdateOldValues(o: map<Label, Tree>, n: map<Label, Tree>, ghost d: nat) returns (r: map<Label, Tree>)
      requires Shaped(Node(o), d) && Shaped(Node(n), d)
      ensures r == ZeroStale(o, n)
      decreases Node(o)
    {
      r := o;
      var todo := o.Keys;
      while todo != {}
        invariant todo <= o.Keys
        invariant r.Keys == o.Keys
        invariant forall k :: k in r ==> r[k] == if k in todo then o[k] else ZeroStale(o, n)[k]
        decreases todo
      {
        var k :| k in todo;
        if k !in n {
          var z := ZeroMissingValue(r[k]);
          r := r[k := z];
        } else if r[k].Node? {
          var sub := UpdateOldValues(r[k].children, n[k].children, d - 1);
          r := r[k := Node(sub)];
        }
        todo := todo - {k};
      }
    }

    /** `__zero_missing_value` as written: a leaf becomes 0; a dict makes line 77 read the unbound name `values`. */
    static method ZeroMissingValueAsWritten(t: Tree) returns (r: Result<Tree>)
      ensures r.Ok? <==> t.Leaf?
      ensures r.Ok? ==> r.value == ZeroAll(t)
      ensures r.Err? ==> r.error == NameError
    {
      if t.Leaf? {
        r := Ok(Leaf(0));
      } else {
        r := Err(NameError);
      }
    }

    /**
      `update_old_values` as written: the same walk as `UpdateOldValues`, with
      the as-written `__zero_missing_value`; the first NameError ends the walk.
    */
    static method UpdateOldValuesAsWritten(o: map<Label, Tree>, n: map<Label, Tree>, ghost d: nat)
      returns (r: Result<map<Label, Tree>>)
      requires Shaped(Node(o), d) && Shaped(Node(n), d)
      ensures r.Err? <==> HasStaleSubtree(o, n)
      ensures r.Err? ==> r.error == NameError
      ensures r.Ok? ==> r.value == ZeroStale(o, n)
      decreases Node(o)
    {
      var acc := o;
      var todo := o.Keys;
      while todo != {}
        invariant todo <= o.Keys
        invariant acc.Keys == o.Keys
        invariant forall k :: k in acc ==> acc[k] == if k in todo then o[k] else ZeroStale(o, n)[k]
        invariant forall k :: k in o && k !in todo ==> !StaleKey(o, n, k)
        decreases todo
      {
        var k :| k in todo;
        if k !in n {
          var z := ZeroMissingValueAsWritten(acc[k]);
          if z.Err? {
            assert StaleKey(o, n, k);
            return Err(z.error);
          }
          acc := acc[k := z.value];
        } else if acc[k].Node? {
          assert n[k].Node? by { assert Shaped(o[k], d - 1) && Shaped(n[k], d - 1); }
          var sub := UpdateOldValuesAsWritten(acc[k].children, n[k].children, d - 1);
          if sub.Err? {
            assert StaleKey(o, n, k);
            return Err(sub.error);
          }
          acc := acc[k := Node(sub.value)];
        }
        todo := todo - {k};
      }
      return Ok(acc);
    }

    /** `add_new_values`: walks the new keys, replacing leaves and merging mappings. */
    static method AddNewValues(o: map<Label, Tree>, n: map<Label, Tree>, ghost d: nat) returns (r: map<Label, Tree>)
      requires Shaped(Node(o), d) && Shaped(Node(n), d)
      ensures r == AddNew(o, n)
      decreases Node(n)
    {
      r := o;
      var todo := n.Keys;
      while todo != {}
        invariant todo <= n.Keys
        invariant r.Keys == o.Keys + (n.Keys - todo)
        invariant forall k :: k in r ==> r[k] == if k in n && k !in todo then AddNew(o, n)[k] else o[k]
        decreases todo
      {
        var k :| k in todo;
        if n[k].Leaf? {
          r := r[k := n[k]];
        } else if k in r {
          var sub := AddNewValues(r[k].children, n[k].children, d - 1);
          r := r[k := Node(sub)];
        } else {
          r := r[k := n[k]];
        }
        todo := todo - {k};
      }
    }

    /** The loop of `update_value` that folds a list of rows into a fresh nested dict. */
    static method FlatToNested(rows: seq<Row>) returns (m: map<Label, Tree>)
      requires RowsHaveLabels(rows)
      ensures m == NestRows(rows)
    {
      m := map[];
      var i := 0;
      while i < |rows|
        invariant 0 <= i <= |rows|
        invariant RowsHaveLabels(rows[..i])
        invariant m == NestRows(rows[..i])
      {
        var v := rows[i];
        assert rows[..i + 1][..i] == rows[..i];
        m := AddValueDict(m, v.labels, v.value);
        i := i + 1;
      }
      assert rows[..i] == rows;
    }

    /**
      `update_metrics`: walks `m` depth first and sets one series per leaf,
      labelled by `prefix` followed by the path to the leaf.
    */
    method UpdateMetrics(m: map<Label, Tree>, prefix: Path)
      modifies this`series, this`trace
      ensures forall p :: Get(series, p)
                          == if ValueBelow(Node(m), prefix, p).Some? then ValueBelow(Node(m), prefix, p)
                             else Get(old(series), p)
      ensures |old(trace)| <= |trace| && trace[..|old(trace)|] == old(trace)
      ensures OnePerLeaf(trace[|old(trace)|..], Node(m), prefix)
      decreases Node(m)
    {
      var todo := m.Keys;
      ghost var done: set<Label> := {};
      ghost var t0 := trace;
      while todo != {}
        invariant todo + done == m.Keys && todo !! done
        invariant forall p :: Get(series, p)
                              == if ValueBelowKeys(m, done, prefix, p).Some? then ValueBelowKeys(m, done, prefix, p)
                                 else Get(old(series), p)
        invariant |t0| <= |trace| && trace[..|t0|] == t0
        invariant OnePerLeafKeys(trace[|t0|..], m, done, prefix)
        decreases todo
      {
        var k :| k in todo;
        var labelsTmp := prefix + [k];
        ghost var before := series;
        ghost var tb := trace;
        match m[k] {
          case Leaf(v) =>
            series := series[labelsTmp := v];
            trace := trace + [(labelsTmp, v)];
            forall p ensures ValueBelow(Leaf(v), labelsTmp, p) == if p == labelsTmp then Some(v) else None {
              BelowLeaf(v, labelsTmp, p);
            }
            assert PathsOf([(labelsTmp, v)]) == {labelsTmp};
          case Node(c) =>
            UpdateMetrics(c, labelsTmp);
        }
        ghost var f := trace[|tb|..];
        assert trace == tb + f;
        assert trace[|t0|..] == tb[|t0|..] + f;
        CombineSets(tb[|t0|..], f, m, done, k, prefix);
        forall p ensures ValueBelowKeys(m, done + {k}, prefix, p)
                         == if ValueBelow(m[k], labelsTmp, p).Some? then ValueBelow(m[k], labelsTmp, p)
                            else ValueBelowKeys(m, done, prefix, p)
        {
          BelowStep(m, done, k, prefix, p);
        }
        todo := todo - {k};
        done := done + {k};
      }
      forall p ensures ValueBelowKeys(m, m.Keys, prefix, p) == ValueBelow(Node(m), prefix, p) {
        BelowAllKeys(m, prefix, p);
      }
    }

    /**
      `update_value`: nests a flat snapshot, merges it into the stored tree,
      zeroes the stored paths it lacks, and sets one series per leaf of the result.
    */
    method UpdateValue(s: Snapshot)
      requires Valid() && Fits(s, |labels|)
      modifies this
      ensures Valid()
      ensures s.Flat? ==> RowsHaveLabels(s.rows)
      ensures values == Reconcile(old(values), Normalize(s))
      ensures |old(trace)| <= |trace| && trace[..|old(trace)|] == old(trace)
      ensures OnePerLeaf(trace[|old(trace)|..], Node(values), [])
    {
      NormalizeShaped(s, |labels|);
      var n: map<Label, Tree>;
      match s {
        case Nested(m) => n := m;
        case Flat(rows) => n := FlatToNested(rows);
      }
      ghost var o := values;
      var merged := AddNewValues(values, n, |labels|);
      AddNewAt(values, n, |labels|);
      merged := UpdateOldValues(merged, n, |labels|);
      ReconcileAt(o, n, |labels|);
      values := merged;
      UpdateMetrics(values, []);
      forall p ensures ValueBelow(Node(values), [], p) == ValueAt(Node(values), p) {
        BelowRoot(Node(values), p);
      }
    }

    /**
      Two `update_value` calls with the same snapshot, as a poll that repeats
      an update makes them: the second leaves the stored tree as the first
      left it and makes the same gauge sets.
    */
    method UpdateTwice(s: Snapshot) returns (ghost first: seq<(Path, int)>, ghost second: seq<(Path, int)>)
      requires Valid() && Fits(s, |labels|)
      modifies this
      ensures Valid()
      ensures values == Reconcile(old(values), Normalize(s))
      ensures trace == old(trace) + first + second
      ensures forall x :: x in first <==> x in second
    {
      ghost var o := values;
      ghost var t0 := trace;
      UpdateValue(s);
      ghost var t1 := trace;
      first := t1[|t0|..];
      UpdateValue(s);
      second := trace[|t1|..];
      assert trace == t0 + first + second;
      NormalizeShaped(s, |labels|);
      EmissionsIdempotent(o, Normalize(s), |labels|, first, second);
    }
  }

  /**
    A device disappearing from a two-label metric: the zero pass as written
    raises NameError, while the intended one keeps the device and sets its
    series to 0.
  */
  method StaleDeviceRaises() returns (asWritten: Result<map<Label, Tree>>, intended: map<Label, Tree>)
    ensures asWritten == Err(NameError)
    ensures ValueAt(Node(intended), ["phone", "id2"]) == Some(0)
    ensures ValueAt(Node(intended), ["tv", "id1"]) == Some(1)
  {
    var o := map["tv" := Node(map["id1" := Leaf(1)]), "phone" := Node(map["id2" := Leaf(1)])];
    var n := map["tv" := Node(map["id1" := Leaf(1)])];
    assert Shaped(Node(o), 2) && Shaped(Node(n), 2);
    assert "phone" in o && StaleKey(o, n, "phone");
    asWritten := MetricLabels.UpdateOldValuesAsWritten(o, n, 2);
    intended := MetricLabels.UpdateOldValues(o, n, 2);
    assert intended["phone"] == ZeroAll(o["phone"]);
    assert ZeroAll(o["phone"]).children == map["id2" := Leaf(0)];
    assert intended["tv"] == Node(ZeroStale(o["tv"].children, n["tv"].children));
    assert ZeroStale(o["tv"].children, n["tv"].children) == map["id1" := Leaf(1)];
    assert ["phone", "id2"][1..] == ["id2"] && ["tv", "id1"][1..] == ["id1"];
    assert ValueAt(intended["phone"], ["id2"]) == ValueAt(Leaf(0), []);
    assert ValueAt(intended["tv"], ["id1"]) == ValueAt(Leaf(1), []);
  }
}
