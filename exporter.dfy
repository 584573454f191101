/**
  The registry of exporter.py: a dictionary from metric name to one of the
  three gauge wrappers. Adding a name always installs a fresh wrapper
  (replacing any earlier one); updating a name forwards the value to the
  wrapper registered under it and touches no other wrapper.
*/
module Exporter {
  import opened LabelTree
  import opened Metrics

  /** The value handed to `update_metric`, one shape per wrapper kind. */
  datatype Value =
    | Scalar(n: int)
    | ByLabel(counts: map<Label, int>)
    | ByLabels(snapshot: Snapshot)

  /** A registered wrapper. */
  datatype Entry =
    | Plain(m: Metric)
    | Single(g: MetricLabel)
    | Multi(t: MetricLabels)
  {
    function Obj(): object
    {
      match this
      case Plain(m) => m
      case Single(g) => g
      case Multi(t) => t
    }

    ghost predicate Valid()
      reads Obj()
    {
      match this
      case Plain(_) => true
      case Single(g) => g.Valid()
      case Multi(t) => t.Valid()
    }

    /**
      The values the wrapper's `update_value` works on: a number for
      `metric`, a label map for `metric_label`, and a snapshot of the
      schema's depth for `metric_labels`. Any other value makes the
      wrapper raise.
    */
    predicate Accepts(v: Value)
    {
      match this
      case Plain(_) => v.Scalar?
      case Single(_) => v.ByLabel?
      case Multi(t) => v.ByLabels? && Fits(v.snapshot, |t.labels|)
    }
  }

  /**
    What `update_value` of the wrapper `e` does with `v`, relating the
    wrapper's fields now to their values in the earlier state.
  */
  twostate predicate Updated(e: Entry, v: Value)
    reads e.Obj()
  {
    match e
    case Plain(m) =>
      v.Scalar? && m.value == Some(v.n) && m.gauge == v.n
    case Single(g) =>
      && v.ByLabel?
      && g.values == old(g.values) + v.counts
      && g.series.Keys == old(g.series).Keys + v.counts.Keys
      && (forall l :: l in g.series ==> g.series[l] == if l in v.counts then v.counts[l] else 0)
      && |old(g.labelValues)| <= |g.labelValues| && g.labelValues[..|old(g.labelValues)|] == old(g.labelValues)
      && (forall l :: l in g.labelValues <==> l in old(g.labelValues) || l in v.counts)
    case Multi(t) =>
      && v.ByLabels?
      && (v.snapshot.Flat? ==> RowsHaveLabels(v.snapshot.rows))
      && t.values == Reconcile(old(t.values), Normalize(v.snapshot))
      && |old(t.trace)| <= |t.trace| && t.trace[..|old(t.trace)|] == old(t.trace)
      && OnePerLeaf(t.trace[|old(t.trace)|..], Node(t.values), [])
  }

  class MetricsHandler {
    /** `self.metrics`. */
    var metrics: map<string, Entry>

    ghost function Objects(): set<object>
      reads this
    {
      set n | n in metrics :: metrics[n].Obj()
    }

    /** Every wrapper is valid and no wrapper is registered under two names. */
    ghost predicate Valid()
      reads this, Objects()
    {
      && (forall n :: n in metrics ==> metrics[n].Valid())
      && (forall n, n' :: n in metrics && n' in metrics && n != n' ==> metrics[n].Obj() != metrics[n'].Obj())
    }

    constructor ()
      ensures Valid()
      ensures metrics == map[]
    {
      metrics := map[];
    }

    /** `add_metric`: registers a fresh unlabelled gauge under `name`. */
    method AddMetric(name: string, description: Option<string>)
      requires Valid()
      modifies this
      ensures Valid()
      ensures metrics.Keys == old(metrics).Keys + {name}
      ensures forall n :: n in old(metrics) && n != name ==> metrics[n] == old(metrics)[n]
      ensures metrics[name].Plain? && fresh(metrics[name].m)
      ensures metrics[name].m.name == name && metrics[name].m.description == DescriptionOr(description, name)
      ensures metrics[name].m.value == None && metrics[name].m.gauge == 0
    {
      var m := new Metric(name, None, description);
      metrics := metrics[name := Plain(m)];
    }

    /** `add_metric_label`: registers a fresh one-label gauge under `name`. */
    method AddMetricLabel(name: string, labelName: Label, description: Option<string>)
      requires Valid()
      modifies this
      ensures Valid()
      ensures metrics.Keys == old(metrics).Keys + {name}
      ensures forall n :: n in old(metrics) && n != name ==> metrics[n] == old(metrics)[n]
      ensures metrics[name].Single? && fresh(metrics[name].g)
      ensures metrics[name].g.name == name && metrics[name].g.labelName == labelName
      ensures metrics[name].g.description == DescriptionOr(description, name)
      ensures metrics[name].g.values == map[] && metrics[name].g.series == map[] && metrics[name].g.labelValues == []
    {
      var g := new MetricLabel(name, labelName, None, description);
      metrics := metrics[name := Single(g)];
    }

    /** `add_metric_labels`: registers a fresh gauge over the label schema `labels` under `name`. */
    method AddMetricLabels(name: string, labels: seq<Label>, description: Option<string>)
      requires Valid()
      requires |labels| >= 1
      modifies this
      ensures Valid()
      ensures metrics.Keys == old(metrics).Keys + {name}
      ensures forall n :: n in old(metrics) && n != name ==> metrics[n] == old(metrics)[n]
      ensures metrics[name].Multi? && fresh(metrics[name].t)
      ensures metrics[name].t.name == name && metrics[name].t.labels == labels
      ensures metrics[name].t.description == DescriptionOr(description, name)
      ensures metrics[name].t.values == map[] && metrics[name].t.series == map[] && metrics[name].t.trace == []
    {
      var t := new MetricLabels(name, labels, None, description);
      metrics := metrics[name := Multi(t)];
    }

    /**
      `update_metric`: forwards `v` to the wrapper registered under `name`;
      an unregistered name raises `KeyError` and changes nothing.
    */
    method UpdateMetric(name: string, v: Value) returns (r: Result<()>)
      requires Valid()
      requires name in metrics ==> metrics[name].Accepts(v)
      modifies if name in metrics then {metrics[name].Obj()} else {}
      ensures Valid()
      ensures metrics == old(metrics)
      ensures r == if name in metrics then Ok(()) else Err(KeyError)
      ensures name in metrics ==> Updated(metrics[name], v)
    {
      if name !in metrics {
        return Err(KeyError);
      }
      match metrics[name] {
        case Plain(m) =>
          m.UpdateValue(v.n);
        case Single(g) =>
          g.UpdateValue(v.counts);
        case Multi(t) =>
          t.UpdateValue(v.snapshot);
      }
      r := Ok(());
    }

    /**
      `add_update_metric`: registers an unlabelled gauge under `name` if
      there is none, then updates whatever is registered under `name`.
    */
    method AddUpdateMetric(name: string, v: Value)
      requires Valid()
      requires name in metrics ==> metrics[name].Accepts(v)
      requires name !in metrics ==> v.Scalar?
      modifies this, if name in metrics then {metrics[name].Obj()} else {}
      ensures Valid()
      ensures metrics.Keys == old(metrics).Keys + {name}
      ensures forall n :: n in old(metrics) ==> metrics[n] == old(metrics)[n]
      ensures name in old(metrics) ==> Updated(metrics[name], v)
      ensures name !in old(metrics) ==>
                && metrics[name].Plain? && fresh(metrics[name].m)
                && metrics[name].m.value == Some(v.n) && metrics[name].m.gauge == v.n
    {
      if name !in metrics {
        AddMetric(name, None);
      }
      var _ := UpdateMetric(name, v);
    }

    /**
      `add_update_metric_label`: registers a one-label gauge under `name` if
      there is none, then updates whatever is registered under `name`.
    */
    method AddUpdateMetricLabel(name: string, labelName: Label, v: Value)
      requires Valid()
      requires name in metrics ==> metrics[name].Accepts(v)
      requires name !in metrics ==> v.ByLabel?
      modifies this, if name in metrics then {metrics[name].Obj()} else {}
      ensures Valid()
      ensures metrics.Keys == old(metrics).Keys + {name}
      ensures forall n :: n in old(metrics) ==> metrics[n] == old(metrics)[n]
      ensures name in old(metrics) ==> Updated(metrics[name], v)
      ensures name !in old(metrics) ==>
                && metrics[name].Single? && fresh(metrics[name].g)
                && var g := metrics[name].g;
                && g.labelName == labelName
                && g.values == v.counts && g.series == v.counts
                && (forall l :: l in g.labelValues <==> l in v.counts)
    {
      if name !in metrics {
        AddMetricLabel(name, labelName, None);
      }
      var _ := UpdateMetric(name, v);
    }

    /**
      `add_update_metric_labels`: registers a gauge over `labels` under
      `name` if there is none, then updates whatever is registered under
      `name`; the schema passed is ignored when `name` is registered.
    */
    method AddUpdateMetricLabels(name: string, labels: seq<Label>, v: Value)
      requires Valid()
      requires name in metrics ==> metrics[name].Accepts(v)
      requires name !in metrics ==> |labels| >= 1 && v.ByLabels? && Fits(v.snapshot, |labels|)
      modifies this, if name in metrics then {metrics[name].Obj()} else {}
      ensures Valid()
      ensures metrics.Keys == old(metrics).Keys + {name}
      ensures forall n :: n in old(metrics) ==> metrics[n] == old(metrics)[n]
      ensures name in old(metrics) ==> Updated(metrics[name], v)
      ensures name !in old(metrics) ==>
                && metrics[name].Multi? && fresh(metrics[name].t)
                && var t := metrics[name].t;
                && t.labels == labels
                && t.values == Reconcile(map[], Normalize(v.snapshot))
                && OnePerLeaf(t.trace, Node(t.values), [])
    {
      if name !in metrics {
        AddMetricLabels(name, labels, None);
      }
      var _ := UpdateMetric(name, v);
    }
  }
}
