# emby_exporter in Dafny

A model of the core of emby_exporter, a Prometheus exporter for an Emby media
server. Each poll does three things:

- it reads the library, the server information and the registered devices
  from Emby;
- it turns them into counts and rows;
- it hands these snapshots to small gauge wrappers, which keep a tree of label
  values per metric.

Every wrapper is kept in step with the latest snapshot. New values replace old
ones. The design intends that a label path that disappears is set to 0 and
never deleted, and one gauge series is set per leaf of the tree. As written,
the multi-label wrapper does this only when the vanished label holds a value
directly. When it holds a subtree, as a device in `emby_devices` does, the
zero pass raises NameError. The poll loop does not catch it, so polling
stops. The HTTP server runs in a separate, non-daemon thread, so the process
stays up and the endpoint goes on reporting the values last set (see
"## Findings"). The model proves the intended behaviour and models
the raising code beside it.

The project has five modules, one per file:

- `LabelTree` (`label_tree.dfy`) is the value-level meaning of `metric_labels`:
  - the label tree `Tree = Leaf(int) | Node(map<Label, Tree>)` and the lookup
    `ValueAt`;
  - the folding of flat rows into a tree (`NestRows`);
  - the merge (`AddNew`), the zero pass (`ZeroAll`, `ZeroStale`) and one whole
    update (`Reconcile`);
  - the lemmas saying what these do, path by path.
- `Metrics` (`metrics.dfy`) holds the three wrappers of metrics.py as classes
  whose methods update their fields in place:
  - `Metric`, `MetricLabel` and `MetricLabels`;
  - each gauge is a map from label tuple to value (`series`);
  - `MetricLabels` also keeps a ghost trace of the gauge sets it makes.

  The loops of `metric_labels` are methods, each proved equal to its `LabelTree`
  function.
- `Exporter` (`exporter.dfy`) is the `metrics_handler` registry: a map from
  metric name to wrapper, with the `add_*`, `update_metric` and `add_update_*`
  operations.
- `Counters` (`counters.dfy`) holds the counter dictionaries of
  emby_exporter.py as functions of a multiset of counted values (`Raise`,
  `Tally`), with their total.
- `EmbyExporter` (`emby_exporter.dfy`) holds the counting and row building of
  emby_exporter.py:
  - `update_list`, `count_stats` and `count_userdata` as loops proved against
    `Raise` and `FlagCount`;
  - the library sizes of `update_library`;
  - the rows of `update_info` and `update_devices`.

  The Emby client's answers are inputs: `Library`, `Fetched`, the server
  information map and `Device` records.

Label values are strings. A production year is counted by its label text,
since the gauge renders every label as text.

## Model

| member | source | states |
|---|---|---|
| LabelTree.AddValueDict | emby_exporter/prometheus_metrics/metrics.py:121-130 | after inserting a row, its full label path reaches the row's value; the top-level keys are the old ones plus the row's first label; every other top-level subtree is unchanged; a tree of uniform depth keeps that depth |
| LabelTree.AddValueDictAt | emby_exporter/prometheus_metrics/metrics.py:121-130 | inserting a row changes the value at its own path only: every other path keeps its old value or absence |
| LabelTree.NestRowsAt | emby_exporter/prometheus_metrics/metrics.py:132-141 | a flat list whose rows all have the schema's number of labels folds into a tree of that depth; the value at each path is the value of the last row with those labels, so a later duplicate row overwrites an earlier one |
| LabelTree.LastValueRow | emby_exporter/prometheus_metrics/metrics.py:136-141 | a path has a value in the folded list exactly when some row carries those labels; that value belongs to a row after which no row has the same labels |
| LabelTree.NormalizeShaped | emby_exporter/prometheus_metrics/metrics.py:132-141 | a snapshot that fits the schema, nested or flat (an empty list counts as an empty dict), becomes a tree of the schema's depth |
| LabelTree.AddNewAt | emby_exporter/prometheus_metrics/metrics.py:94-106 | after the merge, a path of the new tree holds exactly its new value (replaced, not summed); a path absent from the new tree keeps its old value; no other path exists; depth is preserved |
| LabelTree.AddNewEmpty | emby_exporter/prometheus_metrics/metrics.py:94-106 | merging into an empty stored tree yields the new tree itself |
| LabelTree.ZeroAll | emby_exporter/prometheus_metrics/metrics.py:75-81 | zeroing keeps a leaf a leaf and a mapping a mapping with the same keys |
| LabelTree.ZeroAllAt | emby_exporter/prometheus_metrics/metrics.py:75-81 | zeroing a subtree keeps exactly its leaf paths and sets every one of them to 0 |
| LabelTree.ZeroAllIdempotent | emby_exporter/prometheus_metrics/metrics.py:75-81 | zeroing twice is zeroing once |
| LabelTree.ZeroStale | emby_exporter/prometheus_metrics/metrics.py:83-92 | the zero pass deletes no key; a stored key absent from the new tree at its level has its whole subtree zeroed |
| LabelTree.ZeroStaleAt | emby_exporter/prometheus_metrics/metrics.py:83-92 | after the zero pass, a stored path also present in the new tree keeps its value, a stored path missing from it reads 0, and no path is added |
| LabelTree.ReconcileAt | emby_exporter/prometheus_metrics/metrics.py:132-145 | after one update, a path of the snapshot holds the snapshot's value, a stored path missing from the snapshot holds 0, and no other path exists |
| LabelTree.ReconcilePaths | emby_exporter/prometheus_metrics/metrics.py:132-145 | the leaf paths after an update are exactly the old leaf paths plus the snapshot's |
| LabelTree.ReconcileIdempotent | emby_exporter/prometheus_metrics/metrics.py:132-145 | updating a second time with the same snapshot leaves the stored tree unchanged |
| LabelTree.GenresExample | emby_exporter/prometheus_metrics/metrics.py:132-145 | `{movies: {Action: 3, Drama: 1}}` updated with `{movies: {Action: 5}}` becomes `{movies: {Action: 5, Drama: 0}}` |
| LabelTree.FlatExample | emby_exporter/prometheus_metrics/metrics.py:134-141 | the rows `[movies, 12]` and `[series, 7]` fold into `{movies: 12, series: 7}` |
| LabelTree.EmptySnapshotExample | emby_exporter/prometheus_metrics/metrics.py:132-145 | an empty snapshot zeroes every stored leaf and keeps every key |
| Metrics.DefaultDescription | emby_exporter/prometheus_metrics/metrics.py:27-28 | the default description is the name with every underscore replaced by a space, all other characters kept |
| Metrics.Metric.constructor | emby_exporter/prometheus_metrics/metrics.py:25-32 | a new scalar metric has its name, its description (the default when none is given), and the gauge set to the initial value when one is given |
| Metrics.Metric.UpdateValue | emby_exporter/prometheus_metrics/metrics.py:34-36 | the stored value and the gauge both become the new value |
| Metrics.MetricLabel.constructor | emby_exporter/prometheus_metrics/metrics.py:40-49 | a new one-label metric starts empty, or holds exactly the initial counts on both its values and its gauge |
| Metrics.MetricLabel.UpdateValue | emby_exporter/prometheus_metrics/metrics.py:51-59 | the label list keeps its old labels as a prefix, gains exactly the new labels and stays duplicate-free; the stored values are the old ones overridden by the new ones and are not zeroed; the gauge sets every given label to its value and every previously seen absent label to 0 |
| Metrics.MetricLabel.SetLabels | emby_exporter/prometheus_metrics/metrics.py:52-56 | the first loop sets each given label on the values and on the gauge, and appends the labels not yet seen, in first-seen order and duplicate-free |
| Metrics.MetricLabel.ZeroAbsent | emby_exporter/prometheus_metrics/metrics.py:57-59 | the second loop sets to 0 on the gauge exactly the seen labels absent from the new value and changes no other series |
| Metrics.MetricLabels.constructor | emby_exporter/prometheus_metrics/metrics.py:63-73 | a new multi-label metric starts with an empty tree and no gauge sets, or with the tree of one update from empty when initial values are given |
| Metrics.MetricLabels.ZeroMissingValue | emby_exporter/prometheus_metrics/metrics.py:75-81 | zeroing a stored value gives the value with every leaf set to 0 (the intended form of line 77) |
| Metrics.MetricLabels.ZeroMissingValueAsWritten | emby_exporter/prometheus_metrics/metrics.py:75-81 | as written, `__zero_missing_value` succeeds exactly on a leaf, giving 0; on a dict it raises NameError |
| Metrics.MetricLabels.UpdateOldValuesAsWritten | emby_exporter/prometheus_metrics/metrics.py:83-92 | as written, the in-place zero pass raises NameError exactly when, at some level, a stale key holds a dict; when it does not raise, it computes the intended zero pass |
| Metrics.MetricLabels.UpdateOldValues | emby_exporter/prometheus_metrics/metrics.py:83-92 | the in-place zero pass computes the zero pass whose path-by-path meaning `ZeroStaleAt` states |
| Metrics.MetricLabels.AddNewValues | emby_exporter/prometheus_metrics/metrics.py:94-106 | the in-place merge computes the merge whose path-by-path meaning `AddNewAt` states |
| Metrics.MetricLabels.FlatToNested | emby_exporter/prometheus_metrics/metrics.py:132-141 | the row loop of `update_value` computes the folded tree whose meaning `NestRowsAt` states |
| Metrics.MetricLabels.UpdateMetrics | emby_exporter/prometheus_metrics/metrics.py:108-119 | the depth-first walk sets every leaf of the tree on the gauge under its root-to-leaf label tuple and leaves other series alone; its gauge sets are exactly one per leaf, each with that leaf's path and value, appended to the earlier ones |
| Metrics.MetricLabels.UpdateValue | emby_exporter/prometheus_metrics/metrics.py:132-145 | one update leaves the stored tree as the old tree reconciled with the snapshot, keeps the gauge equal to the tree's leaves, and makes one gauge set per leaf of the new tree |
| Metrics.MetricLabels.UpdateTwice | emby_exporter/prometheus_metrics/metrics.py:132-145 | updating twice with the same snapshot leaves the tree as after one update, and the second update sets the same (label tuple, value) pairs on the gauge as the first |
| Metrics.PathsOfIn | emby_exporter/prometheus_metrics/metrics.py:108-119 | a label tuple is among the paths of a sequence of gauge sets exactly when some set in it uses that tuple |
| Metrics.SameEmissions | emby_exporter/prometheus_metrics/metrics.py:108-119 | two walks of the same tree, each setting one series per leaf, set the same (label tuple, value) pairs |
| Metrics.EmissionsIdempotent | emby_exporter/prometheus_metrics/metrics.py:132-145 | a second update with the same snapshot leaves the tree unchanged and sets the same (label tuple, value) pairs as the first |
| Metrics.StaleDeviceRaises | emby_exporter/prometheus_metrics/metrics.py:77 | a two-level metric losing one device: the zero pass as written raises NameError, while the intended zero pass sets that device's series to 0 and keeps the other device's value |
| Exporter.MetricsHandler.constructor | emby_exporter/prometheus_metrics/exporter.py:31-32 | a new registry is empty |
| Exporter.MetricsHandler.AddMetric | emby_exporter/prometheus_metrics/exporter.py:34-35 | the name is registered to a fresh scalar metric, replacing any earlier entry; every other name keeps its entry |
| Exporter.MetricsHandler.AddMetricLabel | emby_exporter/prometheus_metrics/exporter.py:37-38 | the name is registered to a fresh, empty one-label metric with the given label, replacing any earlier entry; every other name keeps its entry |
| Exporter.MetricsHandler.AddMetricLabels | emby_exporter/prometheus_metrics/exporter.py:40-41 | the name is registered to a fresh, empty multi-label metric with the given schema, replacing any earlier entry; every other name keeps its entry |
| Exporter.MetricsHandler.UpdateMetric | emby_exporter/prometheus_metrics/exporter.py:43-44 | an unregistered name fails with KeyError; a registered one has its wrapper updated as that wrapper's `update_value` promises; the registry itself is unchanged |
| Exporter.MetricsHandler.AddUpdateMetric | emby_exporter/prometheus_metrics/exporter.py:46-49 | afterwards the name is registered and no entry is removed; an existing metric is kept and updated; a new one is created and then updated |
| Exporter.MetricsHandler.AddUpdateMetricLabel | emby_exporter/prometheus_metrics/exporter.py:51-54 | as `AddUpdateMetric`, for one-label metrics; the label passed for an existing name is ignored |
| Exporter.MetricsHandler.AddUpdateMetricLabels | emby_exporter/prometheus_metrics/exporter.py:56-59 | as `AddUpdateMetric`, for multi-label metrics; the schema passed for an existing name is ignored |
| Counters.RaiseAt | emby_exporter/emby_exporter.py:68-80 | counting a multiset of values into a counter gives a key exactly when it was a key or was counted, and raises each count by the value's multiplicity |
| Counters.RaiseAdd | emby_exporter/emby_exporter.py:91-95 | counting one batch and then another is counting both at once, so counts accumulate item by item |
| Counters.RaiseTotal | emby_exporter/emby_exporter.py:69-74 | counting a list raises the total of all counts by its length |
| EmbyExporter.UpdateList | emby_exporter/emby_exporter.py:67-80 | the counter after `update_list` is the old counter raised by the values of the attribute: each element of a list by its multiplicity, a single value by 1; new keys start at 1 and other keys are unchanged |
| EmbyExporter.UpdateListTotal | emby_exporter/emby_exporter.py:67-80 | `update_list` raises the total count by the list's length, or by exactly 1 for a single value |
| EmbyExporter.CountField | emby_exporter/emby_exporter.py:91-95 | the inner loop raises the counter by the values of the attribute over the type's items; items lacking the attribute contribute nothing |
| EmbyExporter.CountStats | emby_exporter/emby_exporter.py:82-96 | there is a table for every counted attribute and, inside it, a counter for every item type, possibly empty; each counter holds the number of occurrences of each value across the type's items that carry the attribute |
| EmbyExporter.EmptyStats | emby_exporter/emby_exporter.py:83-86 | the first loop of `count_stats` gives a table for exactly the counted attributes, each empty |
| EmbyExporter.CountTypeStats | emby_exporter/emby_exporter.py:87-95 | one pass of the outer loop extends every attribute's table by a counter for the item type, equal to the tally of that type's attribute values, and keeps the other types' counters |
| EmbyExporter.CountAttr | emby_exporter/emby_exporter.py:88-95 | one pass of the middle loop adds the item type to the attribute's table, with the tally of the attribute's values over that type's items, and keeps the counters of the types already done |
| EmbyExporter.CountUserData | emby_exporter/emby_exporter.py:53-65 | it fails with KeyError exactly when some item lacks a counted flag; otherwise the result is the accumulator raised, per flag and type, by the number of flagged items; a type appears only if it was there or has such an item; a flag's table exists once any item exists |
| EmbyExporter.ProgramListsDistinct | emby_exporter/emby_exporter.py:41-42 | the attribute list and the flag list that the exporter counts contain no duplicates |
| EmbyExporter.CountTypeUserData | emby_exporter/emby_exporter.py:56-64 | counting the items of one type fails exactly when one of them lacks a flag, and otherwise extends the counts by every item of that type |
| EmbyExporter.CountItemUserData | emby_exporter/emby_exporter.py:57-64 | one item fails exactly when it lacks a counted flag; otherwise every counted flag gets a table, and the item's type is raised by 1 in the tables of the flags it has set, nothing else changing |
| EmbyExporter.FlagCountBound | emby_exporter/emby_exporter.py:60-64 | a type never has more flagged items than items |
| EmbyExporter.UserDataFromEmpty | emby_exporter/emby_exporter.py:53-65 | from an empty accumulator, a flag's table exists exactly when the library has an item; a type is a key exactly when it has a flagged item, and then holds that number |
| EmbyExporter.UserDataGrows | emby_exporter/emby_exporter.py:53-65 | no count of the accumulator is removed or lowered |
| EmbyExporter.SecondPollDoubles | emby_exporter/emby_exporter.py:53 | with the shared default table, a second poll of the same library reports every non-zero count twice |
| EmbyExporter.CountUserDataFresh | emby_exporter/emby_exporter.py:53-65 | counting from a fresh table on every poll reports the counts of the polled library alone |
| EmbyExporter.LibraryOf | emby_exporter/emby_exporter.py:120-130 | the library holds movies, series, albums and artists, and episodes and songs exactly when extended; each is the client's list for that type, and there is no other type |
| EmbyExporter.LibrarySizes | emby_exporter/emby_exporter.py:131-133 | the size table has exactly the library's types, each mapped to its number of items |
| EmbyExporter.FlaggedWithinSize | emby_exporter/emby_exporter.py:53-65 | on a fresh poll, every user-data count of a type is at most that type's library size |
| EmbyExporter.InfoRows | emby_exporter/emby_exporter.py:112-117 | the server information gives a single row of its six fields in schema order, valued 1; a missing field fails with KeyError |
| EmbyExporter.InfoSnapshot | emby_exporter/emby_exporter.py:112-118 | the `emby_info` tree built from that row has value 1 at the server's field tuple and no other leaf |
| EmbyExporter.DeviceRows | emby_exporter/emby_exporter.py:138-145 | there is one row per device, in device order: the device's six fields, valued 1 |
| EmbyExporter.DeviceSnapshot | emby_exporter/emby_exporter.py:138-146 | the `emby_devices` tree built from those rows has value 1 exactly at the field tuples of the devices; devices with equal fields share one series |

## Left out

- The Emby client is not modelled: connecting, `update_sync`, `info_sync`, the `*_sync` item lists and `devices_sync` are network calls. Their answers are inputs: `Library`, `Fetched`, the information map and the `Device` records.
- The label values from the client are taken as strings. A `None` field of a device, or a numeric production year, is not modelled separately.
- `main` is not modelled: argument parsing, the `print` calls and the sleep-and-poll loop are I/O and scheduling. The `--extended` flag is parsed there but never passed to the exporter.
- The `exporter` class is not modelled: the WSGI server, its thread and the IPv6 switch are I/O and concurrency.
- `update_stats` and `update_metrics` are not modelled. They only glue results to the registry: the metric names are `emby_` plus the lower-cased attribute or flag, and the same update is repeated once per key of `stats`. `ReconcileIdempotent` shows that the repetition changes nothing.
- The registration of `emby_info` and `emby_devices` in the exporter's constructor is not modelled. It consists of two `AddMetricLabels` calls.
- The internals of `prometheus_client.Gauge` are not modelled. A gauge is its map of series, plus a ghost trace of sets for multi-label metrics. Lower-casing of metric names and the gauge's own label-count check are left out.
- The `print(values)` debug call of the `metric_labels` constructor is left out (output only).
- setup.py is packaging metadata and not part of this model.
- A shape mismatch is excluded by preconditions rather than modelled as an error. This is a scalar meeting a dict at one key in metrics.py:90-91 or 100-102, which the code does not handle. The preconditions are `Shaped`, `Fits` and `Accepts`: every snapshot has the depth of the metric's label schema.
- Metrics.MetricLabels.constructor: requires at least one label, because a multi-label metric without labels cannot be updated with any non-empty snapshot.
- Exporter.MetricsHandler.AddMetricLabels: requires at least one label, for the same reason.
- The exception raised by a KeyError part way through `count_userdata` is modelled as `Err(KeyError)`. The partly updated shared table that the code leaves behind is not modelled.
- Dictionary iteration order is not modelled. Loops over a dict pick any remaining key, and the contracts hold for every order.
- Aliasing is not modelled: at metrics.py:104 the stored tree shares the snapshot's subtree. Trees are values here, so later changes to the snapshot cannot reach the stored tree.
- EmbyExporter.CountStats, EmbyExporter.CountUserData: take the attribute list and the flag list as a parameter and require it to be duplicate-free. The program passes the constants `CountLists` and `UserDataFlags`, which `ProgramListsDistinct` shows to be duplicate-free.
- EmbyExporter.UpdateList: takes its accumulator explicitly. The `current_data={}` default of emby_exporter.py:68 is never used, because `count_stats` always passes a counter.

## Findings

| source | as written | input that shows it | evidently intended | confidence | as-written member | corrected member |
|---|---|---|---|---|---|---|
| emby_exporter/prometheus_metrics/metrics.py:77 | `__zero_missing_value` iterates `values`, a name not bound in that method, so zeroing a dict raises NameError. `update_old_values` therefore raises whenever a stale key holds a subtree. | a two-label metric holding `{tv: {id1: 1}, phone: {id2: 1}}`, updated with `{tv: {id1: 1}}` | iterate `value`, keeping the stale subtree with every leaf set to 0 | high (not executed) | Metrics.StaleDeviceRaises | LabelTree.ZeroStaleAt |
| emby_exporter/emby_exporter.py:53 | `current_data={}` is one dictionary shared by every call, and `update_stats` calls `count_userdata(data)` without an accumulator on every poll. The user-data counts therefore pile up across polls. | a library with one played movie, polled twice: `emby_played{type="movies"}` reads 1 and then 2 | every poll counts into a fresh table | high (not executed) | EmbyExporter.SecondPollDoubles | EmbyExporter.CountUserDataFresh |
