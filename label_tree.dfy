/**
  The label tree of a multi-label gauge: a nested mapping from label value to
  either a count (a leaf) or a further mapping, addressed by a path of label
  values from the root. This module holds the value-level definitions of the
  four steps one update of a `metric_labels` object performs (nesting a flat
  snapshot, merging it in, zeroing stale paths) and the lemmas that state what
  they mean, leaf path by leaf path.
*/
module LabelTree {

  datatype Option<T> = None | Some(value: T)

  datatype Result<T> = Ok(value: T) | Err(error: Error)

  /** The exceptions the Python code can raise in the modelled paths. */
  datatype Error = NameError | KeyError

  type Label = string

  type Path = seq<Label>

  /** A nested dict whose innermost values are counts. */
  datatype Tree = Leaf(value: int) | Node(children: map<Label, Tree>)

  /** One row of a flat snapshot: the labels, and the value that is the row's last element. */
  datatype Row = Row(labels: Path, value: int)

  /** What `metric_labels.update_value` accepts: an already nested dict or a list of rows. */
  datatype Snapshot = Nested(tree: map<Label, Tree>) | Flat(rows: seq<Row>)

  /** No label occurs twice in `s`. */
  predicate NoDup(s: seq<Label>)
  {
    forall i, j :: 0 <= i < j < |s| ==> s[i] != s[j]
  }

  /** The value found by following path `p` from `t`, if `p` ends exactly at a leaf. */
  function ValueAt(t: Tree, p: Path): Option<int>
  {
    if p == [] then (if t.Leaf? then Some(t.value) else None)
    else if t.Node? && p[0] in t.children then ValueAt(t.children[p[0]], p[1..])
    else None
  }

  /** Lookup in a gauge's series map. */
  function Get(series: map<Path, int>, p: Path): Option<int>
  {
    if p in series then Some(series[p]) else None
  }

  /** Every leaf of `t` lies at depth `d` and every node above depth `d` is a mapping. */
  predicate Shaped(t: Tree, d: nat)
  {
    match t
    case Leaf(_) => d == 0
    case Node(m) => d > 0 && forall k :: k in m ==> Shaped(m[k], d - 1)
  }

  /** A snapshot fits a metric with `arity` labels. */
  predicate Fits(s: Snapshot, arity: nat)
  {
    match s
    case Nested(m) => Shaped(Node(m), arity)
    case Flat(rows) => arity >= 1 && forall i :: 0 <= i < |rows| ==> |rows[i].labels| == arity
  }

  lemma {:induction false} ShapedDepth(t: Tree, d: nat, p: Path)
    requires Shaped(t, d) && ValueAt(t, p).Some?
    ensures |p| == d
    decreases t
  {
    if p != [] {
      ShapedDepth(t.children[p[0]], d - 1, p[1..]);
    }
  }

  // ---------------------------------------------------------------------
  // Flat rows to a nested tree
  // ---------------------------------------------------------------------

  /**
    Inserts one row (labels `items`, value `value`) into the mapping `d`,
    creating an intermediate mapping only where the next label is absent.
    (A leaf met part way along the row's labels would make the Python code
    raise; `Fits` excludes that case, and here the mapping replaces the leaf.)
  */
  function AddValueDict(d: map<Label, Tree>, items: Path, value: int): (r: map<Label, Tree>)
    requires |items| >= 1
    ensures ValueAt(Node(r), items) == Some(value)
    ensures r.Keys == d.Keys + {items[0]}
    ensures forall k :: k in d && k != items[0] ==> r[k] == d[k]
    ensures Shaped(Node(d), |items|) ==> Shaped(Node(r), |items|)
    decreases |items|
  {
    if |items| > 1 then
      var sub := if items[0] in d && d[items[0]].Node? then d[items[0]].children else map[];
      d[items[0] := Node(AddValueDict(sub, items[1..], value))]
    else
      d[items[0] := Leaf(value)]
  }

  /** Inserting a row sets its own path and leaves every other leaf path as it was. */
  lemma {:induction false} AddValueDictAt(d: map<Label, Tree>, items: Path, value: int)
    requires |items| >= 1 && Shaped(Node(d), |items|)
    ensures forall p :: ValueAt(Node(AddValueDict(d, items, value)), p)
                        == if p == items then Some(value) else ValueAt(Node(d), p)
    decreases |items|
  {
    var r := AddValueDict(d, items, value);
    var k := items[0];
    if |items| > 1 {
      var sub := if k in d && d[k].Node? then d[k].children else map[];
      assert Shaped(Node(sub), |items| - 1);
      AddValueDictAt(sub, items[1..], value);
      forall p ensures ValueAt(Node(r), p) == if p == items then Some(value) else ValueAt(Node(d), p) {
        if p != [] && p[0] == k {
          assert p == items <==> p[1..] == items[1..];
          if k !in d {
            assert ValueAt(Node(map[]), p[1..]) == None;
          }
        }
      }
    } else {
      forall p ensures ValueAt(Node(r), p) == if p == items then Some(value) else ValueAt(Node(d), p) {
        if p != [] && p[0] == k {
          assert p == items <==> p[1..] == [];
          if k in d {
            if p[1..] != [] && ValueAt(d[k], p[1..]).Some? {
              ShapedDepth(d[k], 0, p[1..]);
            }
          }
        }
      }
    }
  }

  /** Do all rows have at least one label (the Python code indexes `items[0]`)? */
  predicate RowsHaveLabels(rows: seq<Row>)
  {
    forall i :: 0 <= i < |rows| ==> |rows[i].labels| >= 1
  }

  /** The flat snapshot folded left to right, one `AddValueDict` per row. */
  function NestRows(rows: seq<Row>): map<Label, Tree>
    requires RowsHaveLabels(rows)
  {
    if rows == [] then map[]
    else
      var last := rows[|rows| - 1];
      AddValueDict(NestRows(rows[..|rows| - 1]), last.labels, last.value)
  }

  /** Reference meaning of a flat snapshot: the value of the last row whose labels are `p`. */
  function LastValue(rows: seq<Row>, p: Path): Option<int>
  {
    if rows == [] then None
    else if rows[|rows| - 1].labels == p then Some(rows[|rows| - 1].value)
    else LastValue(rows[..|rows| - 1], p)
  }

  /** Flat snapshot equals its rows: the leaf at `p` is the value of the last row labelled `p`. */
  lemma {:induction false} NestRowsAt(rows: seq<Row>, arity: nat)
    requires Fits(Flat(rows), arity)
    ensures Shaped(Node(NestRows(rows)), arity)
    ensures forall p :: ValueAt(Node(NestRows(rows)), p) == LastValue(rows, p)
  {
    if rows != [] {
      var init := rows[..|rows| - 1];
      var last := rows[|rows| - 1];
      assert Fits(Flat(init), arity) by {
        forall i | 0 <= i < |init| ensures |init[i].labels| == arity {
          assert init[i] == rows[i];
        }
      }
      NestRowsAt(init, arity);
      AddValueDictAt(NestRows(init), last.labels, last.value);
    }
  }

  /** `LastValue` finds a row labelled `p` exactly when there is one, and no later row has that label. */
  lemma {:induction false} LastValueRow(rows: seq<Row>, p: Path)
    ensures LastValue(rows, p).None? <==> forall i :: 0 <= i < |rows| ==> rows[i].labels != p
    ensures LastValue(rows, p).Some? ==>
              exists i :: 0 <= i < |rows| && rows[i] == Row(p, LastValue(rows, p).value)
                          && forall j :: i < j < |rows| ==> rows[j].labels != p
  {
    if rows != [] {
      var init := rows[..|rows| - 1];
      LastValueRow(init, p);
      if rows[|rows| - 1].labels != p {
        assert forall i :: 0 <= i < |init| ==> init[i] == rows[i];
        if LastValue(rows, p).Some? {
          var i :| 0 <= i < |init| && init[i] == Row(p, LastValue(init, p).value)
                   && forall j :: i < j < |init| ==> init[j].labels != p;
          assert rows[i] == init[i];
          assert forall j :: i < j < |rows| ==> rows[j].labels != p by {
            forall j | i < j < |rows| ensures rows[j].labels != p {
              if j < |init| { assert init[j] == rows[j]; }
            }
          }
        }
      }
    }
  }

  /** The nested form of a snapshot; an empty list behaves as an empty dict. */
  function Normalize(s: Snapshot): map<Label, Tree>
    requires s.Flat? ==> RowsHaveLabels(s.rows)
  {
    match s
    case Nested(m) => m
    case Flat(rows) => NestRows(rows)
  }

  lemma NormalizeShaped(s: Snapshot, arity: nat)
    requires Fits(s, arity)
    ensures s.Flat? ==> RowsHaveLabels(s.rows)
    ensures Shaped(Node(Normalize(s)), arity)
  {
    if s.Flat? {
      NestRowsAt(s.rows, arity);
    }
  }

  // ---------------------------------------------------------------------
  // Merge: add_new_values
  // ---------------------------------------------------------------------

  /**
    The stored mapping `o` after the new snapshot `n` is merged in: a new leaf
    replaces the old value, a new mapping is merged key by key into the old one,
    and keys absent from `n` keep their old contents. (A scalar stored where a
    mapping arrives cannot happen under `Shaped`; there the new value wins.)
  */
  function AddNew(o: map<Label, Tree>, n: map<Label, Tree>): map<Label, Tree>
    decreases Node(n)
  {
    map k | k in o.Keys + n.Keys ::
      if k !in n then o[k]
      else if n[k].Leaf? then n[k]
      else if k in o && o[k].Node? then Node(AddNew(o[k].children, n[k].children))
      else n[k]
  }

  /** Replace on merge: every leaf of `n` appears with exactly its value; other leaves are kept. */
  lemma {:induction false} AddNewAt(o: map<Label, Tree>, n: map<Label, Tree>, d: nat)
    requires Shaped(Node(o), d) && Shaped(Node(n), d)
    ensures Shaped(Node(AddNew(o, n)), d)
    ensures forall p :: ValueAt(Node(AddNew(o, n)), p)
                        == if ValueAt(Node(n), p).Some? then ValueAt(Node(n), p) else ValueAt(Node(o), p)
    decreases Node(n)
  {
    var r := AddNew(o, n);
    forall k | k in n && n[k].Node? && k in o
      ensures Shaped(r[k], d - 1)
      ensures forall q :: ValueAt(r[k], q)
                          == if ValueAt(n[k], q).Some? then ValueAt(n[k], q) else ValueAt(o[k], q)
    {
      AddNewAt(o[k].children, n[k].children, d - 1);
    }
    forall p ensures ValueAt(Node(r), p)
                     == if ValueAt(Node(n), p).Some? then ValueAt(Node(n), p) else ValueAt(Node(o), p)
    {
      if p != [] && p[0] in n && n[p[0]].Leaf? && p[0] in o && p[1..] != [] && ValueAt(o[p[0]], p[1..]).Some? {
        ShapedDepth(o[p[0]], 0, p[1..]);
      }
    }
  }

  lemma {:induction false} AddNewEmpty(n: map<Label, Tree>)
    ensures AddNew(map[], n) == n
  {
    var r := AddNew(map[], n);
    assert r.Keys == n.Keys;
    forall k | k in n ensures r[k] == n[k] { }
  }

  // ---------------------------------------------------------------------
  // Zeroing: __zero_missing_value and update_old_values
  // ---------------------------------------------------------------------

  /** `t` with every leaf set to 0 and every key kept. */
  function ZeroAll(t: Tree): (r: Tree)
    ensures r.Leaf? <==> t.Leaf?
    ensures r.Node? ==> r.children.Keys == t.children.Keys
    decreases t
  {
    match t
    case Leaf(_) => Leaf(0)
    case Node(m) => Node(map k | k in m :: ZeroAll(m[k]))
  }

  lemma {:induction false} ZeroAllAt(t: Tree, d: nat)
    requires Shaped(t, d)
    ensures Shaped(ZeroAll(t), d)
    ensures forall p :: ValueAt(ZeroAll(t), p) == if ValueAt(t, p).Some? then Some(0) else None
    decreases t
  {
    if t.Node? {
      forall k | k in t.children
        ensures Shaped(ZeroAll(t.children[k]), d - 1)
        ensures forall q :: ValueAt(ZeroAll(t.children[k]), q) == if ValueAt(t.children[k], q).Some? then Some(0) else None
      {
        ZeroAllAt(t.children[k], d - 1);
      }
    }
  }

  lemma {:induction false} ZeroAllIdempotent(t: Tree)
    ensures ZeroAll(ZeroAll(t)) == ZeroAll(t)
    decreases t
  {
    if t.Node? {
      var z := ZeroAll(t).children;
      var zz := ZeroAll(ZeroAll(t)).children;
      forall k | k in z ensures zz[k] == z[k] {
        ZeroAllIdempotent(t.children[k]);
      }
      assert zz == z;
    }
  }

  /**
    The intended `update_old_values`: every key of `o` missing from `n` has its
    whole subtree zeroed, keys present in both are reconciled one level down,
    and no key is ever deleted.
  */
  function ZeroStale(o: map<Label, Tree>, n: map<Label, Tree>): (r: map<Label, Tree>)
    ensures r.Keys == o.Keys
    ensures forall k :: k in o && k !in n ==> r[k] == ZeroAll(o[k])
    decreases Node(o)
  {
    map k | k in o ::
      if k !in n then ZeroAll(o[k])
      else if o[k].Node? && n[k].Node? then Node(ZeroStale(o[k].children, n[k].children))
      else o[k]
  }

  /** Zero, never delete: leaves of `o` absent from `n` become 0, the others keep their value. */
  lemma {:induction false} ZeroStaleAt(o: map<Label, Tree>, n: map<Label, Tree>, d: nat)
    requires Shaped(Node(o), d) && Shaped(Node(n), d)
    ensures Shaped(Node(ZeroStale(o, n)), d)
    ensures forall p :: ValueAt(Node(ZeroStale(o, n)), p)
                        == if ValueAt(Node(o), p).None? then None
                           else if ValueAt(Node(n), p).Some? then ValueAt(Node(o), p)
                           else Some(0)
    decreases Node(o)
  {
    var r := ZeroStale(o, n);
    forall k | k in o && k !in n
      ensures Shaped(r[k], d - 1)
      ensures forall q :: ValueAt(r[k], q) == if ValueAt(o[k], q).Some? then Some(0) else None
    {
      ZeroAllAt(o[k], d - 1);
    }
    forall k | k in o && k in n && o[k].Node? && n[k].Node?
      ensures Shaped(r[k], d - 1)
      ensures forall q :: ValueAt(r[k], q)
                          == if ValueAt(o[k], q).None? then None
                             else if ValueAt(n[k], q).Some? then ValueAt(o[k], q)
                             else Some(0)
    {
      ZeroStaleAt(o[k].children, n[k].children, d - 1);
    }
    forall p ensures ValueAt(Node(r), p)
                     == if ValueAt(Node(o), p).None? then None
                        else if ValueAt(Node(n), p).Some? then ValueAt(Node(o), p)
                        else Some(0)
    {
      if p != [] && p[0] in o && p[0] in n {
        var k := p[0];
        if ValueAt(n[k], p[1..]).Some? { ShapedDepth(n[k], d - 1, p[1..]); }
        if ValueAt(o[k], p[1..]).Some? { ShapedDepth(o[k], d - 1, p[1..]); }
      }
    }
  }

  // ---------------------------------------------------------------------
  // One whole update: merge, then zero
  // ---------------------------------------------------------------------

  /** The stored tree after one `update_value` with the nested snapshot `n`. */
  function Reconcile(o: map<Label, Tree>, n: map<Label, Tree>): map<Label, Tree>
  {
    ZeroStale(AddNew(o, n), n)
  }

  /**
    The meaning of one update, leaf path by leaf path: a path of the new
    snapshot takes the new value (replaced, not summed), a stored path missing
    from it becomes 0, and no other leaf exists.
  */
  lemma ReconcileAt(o: map<Label, Tree>, n: map<Label, Tree>, d: nat)
    requires Shaped(Node(o), d) && Shaped(Node(n), d)
    ensures Shaped(Node(Reconcile(o, n)), d)
    ensures forall p :: ValueAt(Node(Reconcile(o, n)), p)
                        == if ValueAt(Node(n), p).Some? then ValueAt(Node(n), p)
                           else if ValueAt(Node(o), p).Some? then Some(0)
                           else None
  {
    AddNewAt(o, n, d);
    ZeroStaleAt(AddNew(o, n), n, d);
  }

  /** Paths only grow: the leaf paths after an update are the old ones plus the new ones. */
  lemma ReconcilePaths(o: map<Label, Tree>, n: map<Label, Tree>, d: nat, p: Path)
    requires Shaped(Node(o), d) && Shaped(Node(n), d)
    ensures ValueAt(Node(Reconcile(o, n)), p).Some?
            <==> ValueAt(Node(o), p).Some? || ValueAt(Node(n), p).Some?
  {
    ReconcileAt(o, n, d);
  }

  /** Idempotence: a second update with the same snapshot leaves the stored tree as it is. */
  lemma {:induction false} ReconcileIdempotent(o: map<Label, Tree>, n: map<Label, Tree>, d: nat)
    requires Shaped(Node(o), d) && Shaped(Node(n), d)
    ensures Reconcile(Reconcile(o, n), n) == Reconcile(o, n)
    decreases Node(n), 1
  {
    var r := Reconcile(o, n);
    var r2 := Reconcile(r, n);
    assert r2.Keys == r.Keys;
    forall k | k in r ensures r2[k] == r[k] {
      ReconcileIdempotentAt(o, n, d, k);
    }
  }

  /** The idempotence of one update, at the key `k` of the stored tree. */
  lemma {:induction false} ReconcileIdempotentAt(o: map<Label, Tree>, n: map<Label, Tree>, d: nat, k: Label)
    requires Shaped(Node(o), d) && Shaped(Node(n), d)
    requires k in o || k in n
    ensures k in Reconcile(o, n) && k in Reconcile(Reconcile(o, n), n)
    ensures Reconcile(Reconcile(o, n), n)[k] == Reconcile(o, n)[k]
    decreases Node(n), 0
  {
    var r := Reconcile(o, n);
    var a2 := AddNew(r, n);
    if k !in n {
      assert r[k] == ZeroAll(o[k]);
      assert a2[k] == r[k];
      ZeroAllIdempotent(o[k]);
    } else if n[k].Node? {
      var nc := n[k].children;
      var oc := if k in o then o[k].children else map[];
      if k in o {
        assert o[k].Node? by { assert Shaped(o[k], d - 1) && Shaped(n[k], d - 1); }
      } else {
        AddNewEmpty(nc);
      }
      assert AddNew(o, n)[k] == Node(AddNew(oc, nc));
      assert r[k] == Node(Reconcile(oc, nc));
      assert a2[k] == Node(AddNew(Reconcile(oc, nc), nc));
      ReconcileIdempotent(oc, nc, d - 1);
    }
  }

  // ---------------------------------------------------------------------
  // The zeroing of metrics.py as written
  // ---------------------------------------------------------------------

  /**
    As written, `__zero_missing_value` names the unbound `values` as soon as
    it is given a dict, so the zero pass fails exactly when it meets, at some
    level, a stale key holding a dict.
  */
  predicate HasStaleSubtree(o: map<Label, Tree>, n: map<Label, Tree>)
    decreases Node(o), 1
  {
    exists k :: k in o && StaleKey(o, n, k)
  }

  /** Does the zero pass fail at key `k` of `o`, or below it? */
  predicate StaleKey(o: map<Label, Tree>, n: map<Label, Tree>, k: Label)
    requires k in o
    decreases Node(o), 0
  {
    if k !in n then o[k].Node?
    else o[k].Node? && n[k].Node? && HasStaleSubtree(o[k].children, n[k].children)
  }

  // ---------------------------------------------------------------------
  // Worked examples
  // ---------------------------------------------------------------------

  /** `{movies: {Action: 3, Drama: 1}}` updated with `{movies: {Action: 5}}`. */
  lemma GenresExample()
    ensures Reconcile(map["movies" := Node(map["Action" := Leaf(3), "Drama" := Leaf(1)])],
                      map["movies" := Node(map["Action" := Leaf(5)])])
            == map["movies" := Node(map["Action" := Leaf(5), "Drama" := Leaf(0)])]
  {
    var o := map["movies" := Node(map["Action" := Leaf(3), "Drama" := Leaf(1)])];
    var n := map["movies" := Node(map["Action" := Leaf(5)])];
    var a := AddNew(o, n);
    assert a["movies"].children == map["Action" := Leaf(5), "Drama" := Leaf(1)];
    var r := Reconcile(o, n);
    assert r["movies"].children == map["Action" := Leaf(5), "Drama" := Leaf(0)];
  }

  /** A one-label flat snapshot `[(movies, 12), (series, 7)]`. */
  lemma FlatExample()
    ensures NestRows([Row(["movies"], 12), Row(["series"], 7)])
            == map["movies" := Leaf(12), "series" := Leaf(7)]
  {
    var rows := [Row(["movies"], 12), Row(["series"], 7)];
    assert rows[..1] == [Row(["movies"], 12)];
    assert rows[..1][..0] == [];
  }

  /** An empty snapshot zeroes everything stored. */
  lemma EmptySnapshotExample()
    ensures Reconcile(map["a" := Node(map["x" := Leaf(2)])], map[])
            == map["a" := Node(map["x" := Leaf(0)])]
  {
    var o := map["a" := Node(map["x" := Leaf(2)])];
    assert AddNew(o, map[]) == o;
    assert ZeroAll(o["a"]) == Node(map["x" := Leaf(0)]);
  }
}
