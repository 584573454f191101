/**
  The counting and row building of emby_exporter.py. The Emby client's
  answers (library items, server information, devices) are taken as
  inputs; the results are the snapshots handed to the metric registry.
*/
module EmbyExporter {
  import opened LabelTree
  import opened Counters

  // ---------------------------------------------------------------------
  // Library items
  // ---------------------------------------------------------------------

  /** An attribute of an item: a list (`Genres`) or a single value (`ProductionYear`). */
  datatype Attr = Many(items: seq<Label>) | One(item: Label)

  /** An Emby item: its attribute dictionary and its `UserData` flags. */
  datatype Item = Item(attrs: map<string, Attr>, userData: map<string, bool>)

  /** Items by item type (`movies`, `series`, ...). */
  type Library = map<string, seq<Item>>

  /** `self.count_lists`. */
  const CountLists: seq<string> := ["Genres", "ProductionYear"]

  /** `self.count_user_data`. */
  const UserDataFlags: seq<string> := ["Played", "IsFavorite"]

  /** The attributes and flags the program counts are distinct, as `CountStats` and `CountUserData` require. */
  lemma ProgramListsDistinct()
    ensures NoDup(CountLists) && NoDup(UserDataFlags)
  {
  }

  /** The values an attribute contributes to a count, with multiplicity. */
  function Elems(a: Attr): multiset<Label>
  {
    match a
    case Many(items) => multiset(items)
    case One(item) => multiset{item}
  }

  /** `update_list`: counts one attribute value into `acc`. */
  method UpdateList(data: Attr, acc: map<Label, int>) returns (r: map<Label, int>)
    ensures r == Raise(acc, Elems(data))
  {
    r := acc;
    RaiseNothing(acc);
    match data {
      case Many(items) =>
        var i := 0;
        while i < |items|
          invariant 0 <= i <= |items|
          invariant r == Raise(acc, multiset(items[..i]))
        {
          var x := items[i];
          ElemsStep(acc, items, i);
          if x !in r {
            r := r[x := 1];
          } else {
            r := r[x := r[x] + 1];
          }
          i := i + 1;
        }
        assert items[..i] == items;
      case One(x) =>
        RaiseStep(acc, multiset{}, x);
        if x !in r {
          r := r[x := 1];
        } else {
          r := r[x := r[x] + 1];
        }
    }
  }

  /** Counting `items[i]` extends the count of `items[..i]` to that of `items[..i + 1]`. */
  lemma ElemsStep(acc: map<Label, int>, items: seq<Label>, i: nat)
    requires i < |items|
    ensures Raise(acc, multiset(items[..i + 1]))
            == Raise(acc, multiset(items[..i]))[items[i] := Count(Raise(acc, multiset(items[..i])), items[i]) + 1]
  {
    assert items[..i + 1] == items[..i] + [items[i]];
    RaiseStep(acc, multiset(items[..i]), items[i]);
  }

  /**
    `update_list` raises the total count by the number of values counted:
    by the length of a list, and by exactly 1 for a single value.
  */
  lemma UpdateListTotal(data: Attr, acc: map<Label, int>)
    ensures Total(Raise(acc, Elems(data))) == Total(acc) + (if data.Many? then |data.items| else 1)
  {
    match data
    case Many(items) =>
      RaiseTotal(acc, items);
    case One(item) =>
      assert multiset([item]) == multiset{item};
      RaiseTotal(acc, [item]);
  }

  /** The values every item of `items` carrying attribute `field` contributes. */
  function FieldElems(items: seq<Item>, field: string): multiset<Label>
  {
    if items == [] then multiset{}
    else
      var last := items[|items| - 1];
      FieldElems(items[..|items| - 1], field) + (if field in last.attrs then Elems(last.attrs[field]) else multiset{})
  }

  /**
    The innermost loop of `count_stats`: counts attribute `field` over the
    items of one type into the counter `acc`; items without it add nothing.
  */
  method CountField(items: seq<Item>, field: string, acc: map<Label, int>) returns (counts: map<Label, int>)
    ensures counts == Raise(acc, FieldElems(items, field))
  {
    counts := acc;
    var i := 0;
    while i < |items|
      invariant 0 <= i <= |items|
      invariant counts == Raise(acc, FieldElems(items[..i], field))
    {
      var m := items[i];
      FieldElemsStep(acc, items, i, field);
      if field in m.attrs {
        counts := UpdateList(m.attrs[field], counts);
      }
      i := i + 1;
    }
    assert items[..i] == items;
  }

  /** Counting item `i` extends the count of the items before it to the items up to it. */
  lemma FieldElemsStep(acc: map<Label, int>, items: seq<Item>, i: nat, field: string)
    requires i < |items|
    ensures var before := Raise(acc, FieldElems(items[..i], field));
            Raise(acc, FieldElems(items[..i + 1], field))
            == if field in items[i].attrs then Raise(before, Elems(items[i].attrs[field])) else before
  {
    assert items[..i + 1][..i] == items[..i];
    if field in items[i].attrs {
      RaiseAdd(acc, FieldElems(items[..i], field), Elems(items[i].attrs[field]));
    } else {
      assert FieldElems(items[..i + 1], field) == FieldElems(items[..i], field);
    }
  }

  /**
    The counters of attribute `f` once the item types `done` are counted:
    keyed by exactly those types, each holding the counts of `f` over that
    type's items.
  */
  ghost predicate Counted(m: map<string, map<Label, int>>, data: Library, f: string, done: set<string>)
  {
    && (forall t :: t in m <==> t in done)
    && (forall t :: t in m ==> t in data && m[t] == Tally(FieldElems(data[t], f)))
  }

  /** The counter table of `count_stats` once the item types `done` are counted, one entry per attribute of `lists`. */
  ghost predicate StatsOf(stats: map<string, map<string, map<Label, int>>>, data: Library,
                          lists: seq<string>, done: set<string>)
  {
    && (forall f :: f in stats <==> f in lists)
    && (forall f :: f in stats ==> Counted(stats[f], data, f, done))
  }

  /**
    `count_stats` over the attributes `lists` (`self.count_lists`, which is
    `CountLists`): for every attribute and every item type, the count of each
    value the attribute takes over that type's items.
  */
  method CountStats(data: Library, lists: seq<string>) returns (stats: map<string, map<string, map<Label, int>>>)
    requires NoDup(lists)
    ensures StatsOf(stats, data, lists, data.Keys)
  {
    stats := EmptyStats(data, lists);
    var todo := data.Keys;
    ghost var done: set<string> := {};
    while todo != {}
      invariant todo <= data.Keys && todo !! done && todo + done == data.Keys
      invariant StatsOf(stats, data, lists, done)
      decreases todo
    {
      var t :| t in todo;
      stats := CountTypeStats(data, t, done, lists, stats);
      todo := todo - {t};
      done := done + {t};
    }
  }

  /** The first loop of `count_stats`: an empty counter table for every attribute of `lists`. */
  method EmptyStats(ghost data: Library, lists: seq<string>) returns (stats: map<string, map<string, map<Label, int>>>)
    ensures forall f :: f in stats ==> stats[f] == map[]
    ensures StatsOf(stats, data, lists, {})
  {
    stats := map[];
    for j := 0 to |lists|
      invariant stats.Keys == set f | f in lists[..j]
      invariant forall f :: f in stats ==> stats[f] == map[]
    {
      assert lists[..j + 1] == lists[..j] + [lists[j]];
      stats := stats[lists[j] := map[]];
    }
    assert lists[..|lists|] == lists;
  }

  /** One pass of the outer loop of `count_stats`: the counters of every attribute for the item type `t`. */
  method CountTypeStats(data: Library, t: string, ghost done: set<string>, lists: seq<string>,
                        stats: map<string, map<string, map<Label, int>>>)
    returns (r: map<string, map<string, map<Label, int>>>)
    requires t in data && t !in done && NoDup(lists)
    requires StatsOf(stats, data, lists, done)
    ensures StatsOf(r, data, lists, done + {t})
  {
    r := stats;
    ghost var done' := done + {t};
    for j := 0 to |lists|
      invariant StatsPart(r, stats, data, lists, j, done')
    {
      var f := lists[j];
      var m := CountAttr(data, t, f, done, r[f]);
      StatsPartStep(r, stats, data, lists, j, done', m);
      r := r[f := m];
    }
    assert lists[..|lists|] == lists;
  }

  /** `r` is `stats` with the first `j` attributes of `lists` recounted over the item types `done`. */
  ghost predicate StatsPart(r: map<string, map<string, map<Label, int>>>, stats: map<string, map<string, map<Label, int>>>,
                            data: Library, lists: seq<string>, j: nat, done: set<string>)
    requires j <= |lists|
  {
    && (forall g :: g in r <==> g in stats)
    && (forall g :: g in r && g in lists[..j] ==> Counted(r[g], data, g, done))
    && (forall g :: g in r && g !in lists[..j] ==> r[g] == stats[g])
  }

  lemma StatsPartStep(r: map<string, map<string, map<Label, int>>>, stats: map<string, map<string, map<Label, int>>>,
                      data: Library, lists: seq<string>, j: nat, done: set<string>, m: map<string, map<Label, int>>)
    requires j < |lists| && NoDup(lists) && lists[j] in r
    requires StatsPart(r, stats, data, lists, j, done)
    requires Counted(m, data, lists[j], done)
    ensures StatsPart(r[lists[j] := m], stats, data, lists, j + 1, done)
  {
    assert lists[..j + 1] == lists[..j] + [lists[j]];
    assert lists[j] !in lists[..j];
  }

  /** One pass of the middle loop of `count_stats`: counts attribute `f` over the items of type `t` into `m[t]`. */
  method CountAttr(data: Library, t: string, f: string, ghost done: set<string>, m: map<string, map<Label, int>>)
    returns (r: map<string, map<Label, int>>)
    requires t in data && t !in done && Counted(m, data, f, done)
    ensures Counted(r, data, f, done + {t})
  {
    r := m;
    if t !in r {
      r := r[t := map[]];
    }
    var c := CountField(data[t], f, r[t]);
    r := r[t := c];
  }

  // ---------------------------------------------------------------------
  // count_userdata
  // ---------------------------------------------------------------------

  /** Is the user-data flag `f` of `item` set? (The method raises on a missing flag; here it reads as unset.) */
  predicate Flagged(item: Item, f: string)
  {
    f in item.userData && item.userData[f]
  }

  /** The number of items of `items` whose flag `f` is set. */
  function FlagCount(items: seq<Item>, f: string): nat
  {
    if items == [] then 0
    else FlagCount(items[..|items| - 1], f) + (if Flagged(items[|items| - 1], f) then 1 else 0)
  }

  lemma FlagCountStep(items: seq<Item>, i: nat, f: string)
    requires i < |items|
    ensures FlagCount(items[..i + 1], f) == FlagCount(items[..i], f) + (if Flagged(items[i], f) then 1 else 0)
  {
    assert items[..i + 1][..i] == items[..i];
  }

  /** Does the library hold at least one item? */
  ghost predicate HasItems(data: Library)
  {
    exists t :: t in data && |data[t]| > 0
  }

  /** Does every item carry every flag of `flags` in its `UserData`? */
  ghost predicate FlagsPresent(data: Library, flags: seq<string>)
  {
    forall t, i :: t in data && 0 <= i < |data[t]| ==> Carries(data[t][i], flags)
  }

  /** Does the `UserData` of `item` carry every flag of `flags`? */
  predicate Carries(item: Item, flags: seq<string>)
  {
    forall f :: f in flags ==> f in item.userData
  }

  /** The counter of flag `f` in a user-data table; an absent flag has an empty counter. */
  function Table(m: map<string, map<string, int>>, f: string): map<string, int>
  {
    if f in m then m[f] else map[]
  }

  /**
    The counter `m` of one flag is the counter `m0` raised, for every item
    type `t` in `data`, by the number of items of `t` whose flag is set (when
    `isFlag`, i.e. the flag is counted at all); a type is a key only if it was
    one before or that number is not 0.
  */
  ghost predicate FlagCounted(m: map<string, int>, m0: map<string, int>, data: Library, f: string, isFlag: bool)
  {
    && (forall t :: t in m <==> t in m0 || (isFlag && t in data && FlagCount(data[t], f) > 0))
    && (forall t :: t in m ==> m[t] == Count(m0, t) + (if isFlag && t in data then FlagCount(data[t], f) else 0))
  }

  /**
    The table returned by `count_userdata` for the accumulator `current`:
    a counter per flag of `flags` once some item was seen (other counters of
    `current` kept as they were), each raised by the counts of `data`.
  */
  ghost predicate UserDataOf(r: map<string, map<string, int>>, current: map<string, map<string, int>>,
                             data: Library, flags: seq<string>)
  {
    && (forall f :: f in r <==> f in current || (f in flags && HasItems(data)))
    && (forall f :: f in r ==> FlagCounted(r[f], Table(current, f), data, f, f in flags))
  }

  /** The items counted so far: all of them for the types in `done`, the first `i` of type `t0`. */
  ghost function Seen(data: Library, done: set<string>, t0: string, i: nat, t: string, f: string): nat
  {
    if t in done && t in data then FlagCount(data[t], f)
    else if t == t0 && t0 in data && i <= |data[t0]| then FlagCount(data[t0][..i], f)
    else 0
  }

  ghost predicate FlagProgress(m: map<string, int>, m0: map<string, int>, data: Library, f: string, isFlag: bool,
                               done: set<string>, t0: string, i: nat)
  {
    && (forall t :: t in m <==> t in m0 || (isFlag && Seen(data, done, t0, i, t, f) > 0))
    && (forall t :: t in m ==> m[t] == Count(m0, t) + (if isFlag then Seen(data, done, t0, i, t, f) else 0))
  }

  /** The table part way through `count_userdata`: `any` says whether some item has been seen. */
  ghost predicate Progress(c: map<string, map<string, int>>, current: map<string, map<string, int>>,
                           data: Library, flags: seq<string>, done: set<string>, t0: string, i: nat, any: bool)
  {
    && (forall f :: f in c <==> f in current || (f in flags && any))
    && (forall f :: f in c ==> FlagProgress(c[f], Table(current, f), data, f, f in flags, done, t0, i))
  }

  /** The counter `m` after one item of type `t` is counted into `m0`: `t` raised by 1 when `hit`. */
  ghost predicate Bumped(m: map<string, int>, m0: map<string, int>, t: string, hit: bool)
  {
    && (forall k :: k in m <==> k in m0 || (hit && k == t))
    && (forall k :: k in m ==> m[k] == Count(m0, k) + (if hit && k == t then 1 else 0))
  }

  /**
    `count_userdata` with the accumulator `current` passed explicitly:
    counts, per flag of `flags` (`self.count_user_data`, which is
    `UserDataFlags`) and per item type, the items whose flag is set. An item
    whose `UserData` lacks a flag raises `KeyError`.
  */
  method CountUserData(data: Library, flags: seq<string>, current: map<string, map<string, int>>)
    returns (r: Result<map<string, map<string, int>>>)
    requires NoDup(flags)
    ensures r.Err? <==> !FlagsPresent(data, flags)
    ensures r.Err? ==> r.error == KeyError
    ensures r.Ok? ==> UserDataOf(r.value, current, data, flags)
  {
    var c := current;
    var todo := data.Keys;
    ghost var done: set<string> := {};
    ghost var any := false;
    while todo != {}
      invariant forall t :: t in data <==> t in todo || t in done
      invariant forall t :: t in todo ==> t !in done
      invariant forall t, i :: t in done && t in data && 0 <= i < |data[t]| ==> Carries(data[t][i], flags)
      invariant any ==> HasItems(data)
      invariant forall t :: t in done && t in data && |data[t]| > 0 ==> any
      invariant Progress(c, current, data, flags, done, "", 0, any)
      decreases todo
    {
      var t :| t in todo;
      ProgressRestart(c, current, data, flags, done, "", t, any);
      var res := CountTypeUserData(data, t, flags, done, current, any, c);
      if res.Err? {
        return Err(KeyError);
      }
      c := res.value;
      ProgressFinish(c, current, data, flags, done, t, any || |data[t]| > 0);
      todo := todo - {t};
      done := done + {t};
      any := any || |data[t]| > 0;
    }
    ProgressDone(c, current, data, flags, done, any);
    return Ok(c);
  }

  /** The items loop of `count_userdata` for the item type `t`. */
  method CountTypeUserData(data: Library, t: string, flags: seq<string>, ghost done: set<string>,
                           ghost current: map<string, map<string, int>>, ghost any: bool,
                           c: map<string, map<string, int>>)
    returns (r: Result<map<string, map<string, int>>>)
    requires t in data && t !in done && NoDup(flags)
    requires Progress(c, current, data, flags, done, t, 0, any)
    requires forall t' :: t' in done && t' in data && |data[t']| > 0 ==> any
    ensures r.Err? <==> exists i :: 0 <= i < |data[t]| && !Carries(data[t][i], flags)
    ensures r.Ok? ==> Progress(r.value, current, data, flags, done, t, |data[t]|, any || |data[t]| > 0)
  {
    var items := data[t];
    var acc := c;
    ghost var seen := any;
    for i := 0 to |items|
      invariant seen == (any || i > 0)
      invariant AllCarry(items, i, flags)
      invariant Progress(acc, current, data, flags, done, t, i, seen)
    {
      var res := CountItemUserData(items[i], t, flags, acc);
      if res.Err? {
        assert !Carries(data[t][i], flags);
        return Err(KeyError);
      }
      ProgressStep(acc, res.value, current, data, flags, done, t, i, seen);
      AllCarryStep(items, i, flags);
      acc := res.value;
      seen := true;
    }
    return Ok(acc);
  }

  /**
    The table `c'` after one item of type `t` is counted into `c`: every flag
    of `flags` has a counter, and `t` is raised by 1 in those of the flags the
    item has set.
  */
  ghost predicate ItemCounted(c': map<string, map<string, int>>, c: map<string, map<string, int>>,
                              item: Item, t: string, flags: seq<string>)
  {
    && (forall f :: f in c' <==> f in c || f in flags)
    && (forall f :: f in c' ==> Bumped(c'[f], Table(c, f), t, f in flags && Flagged(item, f)))
  }

  /** Do the first `i` items all carry every flag of `flags`? */
  ghost predicate AllCarry(items: seq<Item>, i: nat, flags: seq<string>)
  {
    forall j :: 0 <= j < i && j < |items| ==> Carries(items[j], flags)
  }

  lemma AllCarryStep(items: seq<Item>, i: nat, flags: seq<string>)
    requires i < |items| && AllCarry(items, i, flags) && Carries(items[i], flags)
    ensures AllCarry(items, i + 1, flags)
  {
  }

  /** The flags loop of `count_userdata` for one item of type `t`. */
  method CountItemUserData(item: Item, t: string, flags: seq<string>, c: map<string, map<string, int>>)
    returns (r: Result<map<string, map<string, int>>>)
    requires NoDup(flags)
    ensures r.Ok? <==> Carries(item, flags)
    ensures r.Ok? ==> ItemCounted(r.value, c, item, t, flags)
  {
    var acc := c;
    for j := 0 to |flags|
      invariant forall f :: f in acc <==> f in c || f in flags[..j]
      invariant forall f :: f in acc ==> Bumped(acc[f], Table(c, f), t, f in flags[..j] && Flagged(item, f))
      invariant forall f :: f in flags[..j] ==> f in item.userData
    {
      var f := flags[j];
      if f !in item.userData {
        return Err(KeyError);
      }
      var m := Bump(Table(acc, f), t, item.userData[f]);
      FlagsStep(acc, m, c, item, t, flags, j);
      acc := acc[f := m];
    }
    assert flags[..|flags|] == flags;
    return Ok(acc);
  }

  /** `counts[t] += 1` on one flag's counter when `hit`, starting from 0 when `t` is absent. */
  function Bump(m: map<string, int>, t: string, hit: bool): (r: map<string, int>)
    ensures Bumped(r, m, t, hit)
  {
    if !hit then m
    else if t in m then m[t := m[t] + 1]
    else m[t := 1]
  }

  /** Bumping the counter of flag `flags[j]` extends the loop invariant of `CountItemUserData` by one flag. */
  lemma FlagsStep(acc: map<string, map<string, int>>, m: map<string, int>, c: map<string, map<string, int>>,
                  item: Item, t: string, flags: seq<string>, j: nat)
    requires NoDup(flags) && j < |flags| && flags[j] in item.userData
    requires forall f :: f in acc <==> f in c || f in flags[..j]
    requires forall f :: f in acc ==> Bumped(acc[f], Table(c, f), t, f in flags[..j] && Flagged(item, f))
    requires Bumped(m, Table(acc, flags[j]), t, Flagged(item, flags[j]))
    ensures forall f :: f in acc[flags[j] := m] <==> f in c || f in flags[..j + 1]
    ensures forall f :: f in acc[flags[j] := m] ==> Bumped(acc[flags[j] := m][f], Table(c, f), t, f in flags[..j + 1] && Flagged(item, f))
  {
    var f := flags[j];
    assert flags[..j + 1] == flags[..j] + [f];
    assert f !in flags[..j];
    assert Table(acc, f) == Table(c, f);
  }

  /** With no item counted yet, which type is in progress makes no difference. */
  lemma ProgressRestart(c: map<string, map<string, int>>, current: map<string, map<string, int>>,
                        data: Library, flags: seq<string>, done: set<string>, t0: string, t: string, any: bool)
    requires Progress(c, current, data, flags, done, t0, 0, any)
    ensures Progress(c, current, data, flags, done, t, 0, any)
  {
    forall k, f ensures Seen(data, done, t0, 0, k, f) == Seen(data, done, t, 0, k, f) {
      if t0 in data { assert data[t0][..0] == []; }
      if t in data { assert data[t][..0] == []; }
    }
  }

  /** Once every item of type `t` is counted, `t` joins the finished types. */
  lemma ProgressFinish(c: map<string, map<string, int>>, current: map<string, map<string, int>>,
                       data: Library, flags: seq<string>, done: set<string>, t: string, any: bool)
    requires t in data && t !in done
    requires Progress(c, current, data, flags, done, t, |data[t]|, any)
    ensures Progress(c, current, data, flags, done + {t}, "", 0, any)
  {
    assert data[t][..|data[t]|] == data[t];
    forall k, f ensures Seen(data, done, t, |data[t]|, k, f) == Seen(data, done + {t}, "", 0, k, f) {
      if "" in data { assert data[""][..0] == []; }
    }
  }

  /** Counting item `i` of type `t` advances one flag's counter from the first `i` items to the first `i + 1`. */
  lemma FlagStep(m: map<string, int>, m': map<string, int>, m0: map<string, int>, data: Library, f: string,
                 isFlag: bool, done: set<string>, t: string, i: nat)
    requires t in data && t !in done && i < |data[t]|
    requires FlagProgress(m, m0, data, f, isFlag, done, t, i)
    requires Bumped(m', m, t, isFlag && Flagged(data[t][i], f))
    ensures FlagProgress(m', m0, data, f, isFlag, done, t, i + 1)
  {
    FlagCountStep(data[t], i, f);
    forall k ensures Seen(data, done, t, i + 1, k, f)
                     == Seen(data, done, t, i, k, f) + (if k == t && Flagged(data[t][i], f) then 1 else 0)
    {
    }
  }

  /** Before any item is counted, every count is 0. */
  lemma NothingSeen(data: Library, done: set<string>, t: string, i: nat, k: string, f: string)
    requires forall t' :: t' in done && t' in data ==> |data[t']| == 0
    requires i == 0
    ensures Seen(data, done, t, i, k, f) == 0
  {
    if k in done && k in data {
      assert data[k] == [];
    } else if k == t && t in data {
      assert data[t][..0] == [];
    }
  }

  /** Counting item `i` of type `t` keeps the table in step with the items counted. */
  lemma ProgressStep(acc: map<string, map<string, int>>, acc': map<string, map<string, int>>,
                     current: map<string, map<string, int>>, data: Library, flags: seq<string>,
                     done: set<string>, t: string, i: nat, seen: bool)
    requires t in data && t !in done && i < |data[t]|
    requires Progress(acc, current, data, flags, done, t, i, seen)
    requires forall t' :: t' in done && t' in data && |data[t']| > 0 ==> seen
    requires i > 0 ==> seen
    requires ItemCounted(acc', acc, data[t][i], t, flags)
    ensures Progress(acc', current, data, flags, done, t, i + 1, true)
  {
    forall f | f in acc'
      ensures FlagProgress(acc'[f], Table(current, f), data, f, f in flags, done, t, i + 1)
    {
      if f !in acc {
        forall k ensures Seen(data, done, t, i, k, f) == 0 {
          NothingSeen(data, done, t, i, k, f);
        }
        assert FlagProgress(map[], map[], data, f, f in flags, done, t, i);
      }
      FlagStep(Table(acc, f), acc'[f], Table(current, f), data, f, f in flags, done, t, i);
    }
  }

  /** Once every type is counted, the table is the one `count_userdata` promises. */
  lemma ProgressDone(c: map<string, map<string, int>>, current: map<string, map<string, int>>,
                     data: Library, flags: seq<string>, done: set<string>, any: bool)
    requires forall t :: t in data <==> t in done
    requires Progress(c, current, data, flags, done, "", 0, any)
    requires any ==> HasItems(data)
    requires forall t :: t in done && t in data && |data[t]| > 0 ==> any
    ensures UserDataOf(c, current, data, flags)
  {
    forall k, f ensures Seen(data, done, "", 0, k, f) == if k in data then FlagCount(data[k], f) else 0 {
    }
  }

  /** A type never has more flagged items than items. */
  lemma {:induction false} FlagCountBound(items: seq<Item>, f: string)
    ensures FlagCount(items, f) <= |items|
  {
    if items != [] {
      FlagCountBound(items[..|items| - 1], f);
    }
  }

  /**
    Counting from an empty table: a counter per flag once the library holds an
    item; each type a key exactly when it has a flagged item, with that many.
  */
  lemma UserDataFromEmpty(r: map<string, map<string, int>>, data: Library, flags: seq<string>)
    requires UserDataOf(r, map[], data, flags)
    ensures forall f :: f in r <==> f in flags && HasItems(data)
    ensures forall f, t :: f in r ==> (t in r[f] <==> t in data && FlagCount(data[t], f) > 0)
    ensures forall f, t :: f in r && t in r[f] ==> r[f][t] == FlagCount(data[t], f)
  {
    forall f | f in r
      ensures forall t :: t in r[f] <==> t in data && FlagCount(data[t], f) > 0
      ensures forall t :: t in r[f] ==> r[f][t] == FlagCount(data[t], f)
    {
      assert Table(map[], f) == map[];
    }
  }

  /** `count_userdata` only adds: every count of the accumulator is still there, at least as large. */
  lemma UserDataGrows(r: map<string, map<string, int>>, current: map<string, map<string, int>>,
                      data: Library, flags: seq<string>)
    requires UserDataOf(r, current, data, flags)
    ensures forall f, t :: f in current && t in current[f] ==> f in r && t in r[f] && r[f][t] >= current[f][t]
  {
    forall f, t | f in current && t in current[f] ensures f in r && t in r[f] && r[f][t] >= current[f][t] {
      assert Table(current, f) == current[f];
    }
  }

  /**
    As written, `update_stats` calls `count_userdata(data)`, so every poll adds
    into the one default dictionary: polling the same library a second time
    reports every count twice.
  */
  lemma SecondPollDoubles(r1: map<string, map<string, int>>, r2: map<string, map<string, int>>,
                          data: Library, flags: seq<string>, f: string, t: string)
    requires UserDataOf(r1, map[], data, flags)
    requires UserDataOf(r2, r1, data, flags)
    requires f in flags && t in data && FlagCount(data[t], f) > 0
    ensures f in r1 && t in r1[f] && r1[f][t] == FlagCount(data[t], f)
    ensures f in r2 && t in r2[f] && r2[f][t] == 2 * FlagCount(data[t], f)
  {
    UserDataFromEmpty(r1, data, flags);
    assert HasItems(data) by {
      FlagCountBound(data[t], f);
    }
    assert Table(r1, f) == r1[f];
  }

  /** `count_userdata` with a fresh table on every poll: the counts of `data` alone. */
  method CountUserDataFresh(data: Library, flags: seq<string>) returns (r: Result<map<string, map<string, int>>>)
    requires NoDup(flags)
    ensures r.Err? <==> !FlagsPresent(data, flags)
    ensures r.Ok? ==> forall f :: f in r.value <==> f in flags && HasItems(data)
    ensures r.Ok? ==> forall f, t :: f in r.value ==> (t in r.value[f] <==> t in data && FlagCount(data[t], f) > 0)
    ensures r.Ok? ==> forall f, t :: f in r.value && t in r.value[f] ==> r.value[f][t] == FlagCount(data[t], f)
  {
    r := CountUserData(data, flags, map[]);
    if r.Ok? {
      UserDataFromEmpty(r.value, data, flags);
    }
  }

  // ---------------------------------------------------------------------
  // update_library
  // ---------------------------------------------------------------------

  /** What the Emby client holds for each item type (`movies_sync`, `series_sync`, ...). */
  datatype Fetched = Fetched(movies: seq<Item>, series: seq<Item>, albums: seq<Item>, artists: seq<Item>,
                             episodes: seq<Item>, songs: seq<Item>)

  /** The `data` dictionary of `update_library`: episodes and songs only in extended mode. */
  function LibraryOf(f: Fetched, extended: bool): (data: Library)
    ensures "movies" in data && "series" in data && "albums" in data && "artists" in data
    ensures data["movies"] == f.movies && data["series"] == f.series
    ensures data["albums"] == f.albums && data["artists"] == f.artists
    ensures "episodes" in data <==> extended
    ensures "songs" in data <==> extended
    ensures extended ==> data["episodes"] == f.episodes && data["songs"] == f.songs
    ensures forall t :: t in data ==> t in ["movies", "series", "albums", "artists", "episodes", "songs"]
  {
    var base := map["movies" := f.movies, "series" := f.series, "albums" := f.albums, "artists" := f.artists];
    if extended then base["episodes" := f.episodes]["songs" := f.songs] else base
  }

  /** `size_tmp` of `update_library`: the number of items of each type. */
  method LibrarySizes(data: Library) returns (size: map<string, int>)
    ensures forall t :: t in size <==> t in data
    ensures forall t :: t in size ==> size[t] == |data[t]|
  {
    size := map[];
    var todo := data.Keys;
    while todo != {}
      invariant todo <= data.Keys
      invariant forall t :: t in size <==> t in data && t !in todo
      invariant forall t :: t in size ==> size[t] == |data[t]|
      decreases todo
    {
      var t :| t in todo;
      size := size[t := |data[t]|];
      todo := todo - {t};
    }
  }

  /** Every per-type user-data count of a fresh poll is at most that type's library size. */
  lemma FlaggedWithinSize(r: map<string, map<string, int>>, size: map<string, int>, data: Library, flags: seq<string>)
    requires UserDataOf(r, map[], data, flags)
    requires forall t :: t in size <==> t in data
    requires forall t :: t in size ==> size[t] == |data[t]|
    ensures forall f, t :: f in r && t in r[f] ==> t in size && r[f][t] <= size[t]
  {
    UserDataFromEmpty(r, data, flags);
    forall f, t | f in r && t in r[f] ensures t in size && r[f][t] <= size[t] {
      FlagCountBound(data[t], f);
    }
  }

  // ---------------------------------------------------------------------
  // update_info and update_devices
  // ---------------------------------------------------------------------

  /** Does some row carry the label tuple `p`? */
  predicate Labelled(rows: seq<Row>, p: Path)
  {
    exists i :: 0 <= i < |rows| && rows[i].labels == p
  }

  /** A flat snapshot whose rows are all valued 1: a series at exactly the label tuples of its rows. */
  lemma OnesSnapshot(rows: seq<Row>, arity: nat)
    requires Fits(Flat(rows), arity)
    requires forall i :: 0 <= i < |rows| ==> rows[i].value == 1
    ensures RowsHaveLabels(rows)
    ensures forall p :: ValueAt(Node(NestRows(rows)), p) == if Labelled(rows, p) then Some(1) else None
  {
    NestRowsAt(rows, arity);
    forall p ensures ValueAt(Node(NestRows(rows)), p) == if Labelled(rows, p) then Some(1) else None
    {
      LastValueRow(rows, p);
    }
  }

  /** The server fields `update_info` reads, in label order. */
  const InfoKeys: seq<string> := ["ServerName", "Version", "LocalAddress", "WanAddress", "Id", "OperatingSystem"]

  /** `info_data` of `update_info`: one row of the six server fields, valued 1; a missing field raises `KeyError`. */
  function InfoRows(info: map<string, string>): (r: Result<seq<Row>>)
    ensures r.Ok? <==> forall i :: 0 <= i < |InfoKeys| ==> InfoKeys[i] in info
    ensures r.Err? ==> r.error == KeyError
    ensures r.Ok? ==> |r.value| == 1 && Fits(Flat(r.value), |InfoKeys|) && r.value[0].value == 1
    ensures r.Ok? ==> forall i :: 0 <= i < |InfoKeys| ==> r.value[0].labels[i] == info[InfoKeys[i]]
  {
    if "ServerName" in info && "Version" in info && "LocalAddress" in info && "WanAddress" in info
       && "Id" in info && "OperatingSystem" in info
    then
      Ok([Row([info["ServerName"], info["Version"], info["LocalAddress"], info["WanAddress"],
               info["Id"], info["OperatingSystem"]], 1)])
    else
      assert InfoKeys[0] !in info || InfoKeys[1] !in info || InfoKeys[2] !in info
             || InfoKeys[3] !in info || InfoKeys[4] !in info || InfoKeys[5] !in info;
      Err(KeyError)
  }

  /** The `emby_info` gauge after `update_info`: value 1 at the server's field tuple and nowhere else. */
  lemma InfoSnapshot(info: map<string, string>)
    requires InfoRows(info).Ok?
    ensures RowsHaveLabels(InfoRows(info).value)
    ensures forall p :: ValueAt(Node(NestRows(InfoRows(info).value)), p)
                        == if p == InfoRows(info).value[0].labels then Some(1) else None
  {
    var rows := InfoRows(info).value;
    OnesSnapshot(rows, |InfoKeys|);
  }

  /** A registered device, as `devices_sync` describes it. */
  datatype Device = Device(name: string, id: string, lastUserName: string, lastUserId: string,
                           appName: string, appVersion: string)

  /** The six label values of a device, in the order `emby_devices` declares its labels. */
  function DeviceLabels(d: Device): Path
  {
    [d.name, d.id, d.lastUserName, d.lastUserId, d.appName, d.appVersion]
  }

  /** `device_data` of `update_devices`: one row per device, in order, valued 1. */
  method DeviceRows(devices: seq<Device>) returns (rows: seq<Row>)
    ensures |rows| == |devices|
    ensures forall i :: 0 <= i < |rows| ==> rows[i] == Row(DeviceLabels(devices[i]), 1)
    ensures Fits(Flat(rows), 6)
  {
    rows := [];
    for i := 0 to |devices|
      invariant |rows| == i
      invariant forall j :: 0 <= j < i ==> rows[j] == Row(DeviceLabels(devices[j]), 1)
    {
      var d := devices[i];
      rows := rows + [Row([d.name, d.id, d.lastUserName, d.lastUserId, d.appName, d.appVersion], 1)];
    }
  }

  /**
    The `emby_devices` gauge after `update_devices`: value 1 exactly at the
    label tuples of the devices; devices with equal fields share one series.
  */
  lemma DeviceSnapshot(devices: seq<Device>, rows: seq<Row>)
    requires |rows| == |devices|
    requires forall i :: 0 <= i < |rows| ==> rows[i] == Row(DeviceLabels(devices[i]), 1)
    ensures RowsHaveLabels(rows)
    ensures forall p :: ValueAt(Node(NestRows(rows)), p)
                        == if exists i :: 0 <= i < |devices| && DeviceLabels(devices[i]) == p then Some(1) else None
  {
    OnesSnapshot(rows, 6);
  }
}
