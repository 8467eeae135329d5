/** The whole storage: a chain of layers, and the table that outlives the process
    (storage/stat.go, storage/stat_persist.go). */
module Storage {
  import opened Wrappers
  import opened Seqs
  import opened Layers
  import opened LayerRange
  import opened Databases
  import opened Mirrors
  import opened Stats
  import opened Chains
  import opened Restoring

  /** The table mirrors the layers of a history. */
  ghost predicate Saves<A>(rows: Rows<A>, cfgs: seq<Config<A>>, start: Time, history: seq<Entry<A>>)
    requires WellConfigured(cfgs)
  {
    Rising(start, history) && Mirror(rows, 0, Cascade(cfgs, start, history))
  }

  /** One more entry, later than all others, appended to both. */
  lemma {:induction false} AppendSaves<A>(cfgs: seq<Config<A>>, start: Time, history: seq<Entry<A>>, e: Entry<A>,
                                          rows: Rows<A>)
    requires cfgs != [] && WellConfigured(cfgs) && Rising(start, history)
    requires TimeBefore(start, history, |history|) < e.time
    ensures Rising(start, history + [e])
    ensures Append(cfgs, Cascade(cfgs, start, history), e) == Cascade(cfgs, start, history + [e])
    ensures Saves(rows, cfgs, start, history)
        ==> Saves(StoreAppend(cfgs, Cascade(cfgs, start, history), 0, rows, e), cfgs, start, history + [e])
  {
    RisingExtend(start, history, e);
    AppendExtendsHistory(cfgs, start, history, e);
    if Saves(rows, cfgs, start, history) {
      HistoryIsCoherent(cfgs, start, history);
      CascadeEnds(cfgs, start, history);
      AppendKeepsMirror(cfgs, Cascade(cfgs, start, history), 0, rows, e);
    }
  }

  lemma {:induction false} CoherentRises<A>(cfgs: seq<Config<A>>, layers: seq<Layer<A>>)
    requires |cfgs| == |layers| && Coherent(cfgs, layers)
    ensures RisingAll(layers)
    decreases |layers|
  {
    if layers != [] {
      CoherentRises(cfgs[1..], layers[1..]);
    }
  }

  lemma {:induction false} HistoryIsRun<A>(cfgs: seq<Config<A>>, start: Time, history: seq<Entry<A>>)
    requires cfgs != [] && WellConfigured(cfgs) && Rising(start, history)
    ensures RisingAll(Cascade(cfgs, start, history)) && Cascade(cfgs, start, history) == AfterRun(cfgs, start, history)
  {
    HistoryIsCoherent(cfgs, start, history);
    CoherentRises(cfgs, Cascade(cfgs, start, history));
    RunGivesHistory(cfgs, start, history);
  }

  /** The numbers, from `n` on, of layers that have rows. */
  ghost function Pending<A>(rows: Rows<A>, n: nat): set<nat> {
    set key | key in rows && key.0 >= n :: key.0
  }

  lemma PendingShrinks<A>(rows: Rows<A>, n: nat)
    requires HasRows(rows, n)
    ensures Pending(rows, n + 1) < Pending(rows, n)
  {
    var t :| (n, t) in rows;
    assert (n, t).0 in Pending(rows, n);
  }

  /** Layer `k` once those numbered below `n` have been looked at. */
  ghost predicate StepAt<A(!new)>(cfgs: seq<Config<A>>, rows0: Rows<A>, before: seq<Layer<A>>, after: seq<Layer<A>>,
                           n: nat, k: nat)
    requires k < |cfgs| == |before| == |after|
  {
    if k < n then LoadedFrom(rows0, k, cfgs[k].len, after[k]) else after[k] == before[k]
  }

  ghost predicate AllSteps<A(!new)>(cfgs: seq<Config<A>>, rows0: Rows<A>, before: seq<Layer<A>>, after: seq<Layer<A>>,
                             n: nat) {
    && |cfgs| == |before| == |after|
    && (forall k :: 0 <= k < |cfgs| ==> StepAt(cfgs, rows0, before, after, n, k))
    && (forall j: nat :: j < n ==> HasRows(rows0, j))
    && (n > 0 ==> !OneRow(rows0, 0))
  }

  /** What has been done once the layers numbered below `n` have been looked at. */
  ghost predicate Progress<A(!new)>(cfgs: seq<Config<A>>, rows0: Rows<A>, rows: Rows<A>, before: seq<Layer<A>>,
                                    after: seq<Layer<A>>, n: nat)
  {
    AllSteps(cfgs, rows0, before, after, n) && RowsKept(rows0, rows, n, after)
  }

  lemma {:induction false} StepLoaded<A(!new)>(cfgs: seq<Config<A>>, rows0: Rows<A>, before: seq<Layer<A>>,
                                        after: seq<Layer<A>>, n: nat, l: Layer<A>)
    requires AllSteps(cfgs, rows0, before, after, n) && n < |cfgs| && LoadedFrom(rows0, n, cfgs[n].len, l)
    requires HasRows(rows0, n) && (n == 0 ==> !OneRow(rows0, 0))
    ensures AllSteps(cfgs, rows0, before, after[n := l], n + 1)
  {
    hide LoadedFrom, HasRows, OneRow;
    var loaded, next := after[n := l], n + 1;
    forall k | 0 <= k < |cfgs|
      ensures StepAt(cfgs, rows0, before, loaded, next, k)
    {
      assert StepAt(cfgs, rows0, before, after, n, k);
    }
  }

  lemma StepsOf<A(!new)>(cfgs: seq<Config<A>>, rows0: Rows<A>, rows: Rows<A>, before: seq<Layer<A>>,
                  after: seq<Layer<A>>, n: nat)
    requires Progress(cfgs, rows0, rows, before, after, n)
    ensures AllSteps(cfgs, rows0, before, after, n) && |after| == |before| == |cfgs| && RowsKept(rows0, rows, n, after)
  {
  }

  lemma ProgressOf<A(!new)>(cfgs: seq<Config<A>>, rows0: Rows<A>, rows: Rows<A>, before: seq<Layer<A>>,
                     after: seq<Layer<A>>, n: nat)
    requires AllSteps(cfgs, rows0, before, after, n) && RowsKept(rows0, rows, n, after)
    ensures Progress(cfgs, rows0, rows, before, after, n)
  {
  }

  lemma {:induction false} ModelsLoad<A(!new)>(rows0: Rows<A>, rows: Rows<A>, n: nat, after: seq<Layer<A>>,
                                        models: seq<Entry<A>>, len: nat)
    requires RowsKept(rows0, rows, n, after) && IsModels(rows, n, models) && models != []
    ensures LoadedFrom(rows0, n, len, LoadedLayer(len, models)) && HasRows(rows0, n)
    ensures (OneRow(rows0, n) <==> |models| == 1)
  {
    hide RowsKept, IsModels, LoadedLayer, HasRows, OneRow, SameRows;
    RowsNotYetLost(rows0, rows, n, after);
    SameModels(rows0, rows, n, models);
  }

  lemma {:induction false} ProgressLoaded<A(!new)>(cfgs: seq<Config<A>>, rows0: Rows<A>, rows: Rows<A>,
                                            before: seq<Layer<A>>,
                                after: seq<Layer<A>>, n: nat, models: seq<Entry<A>>)
    requires Progress(cfgs, rows0, rows, before, after, n) && n < |cfgs|
    requires IsModels(rows, n, models) && models != [] && (n == 0 ==> |models| != 1)
    ensures var l, i := LoadedLayer(cfgs[n].len, models), LoadedSize(cfgs[n].len, models) + 1;
      Progress(cfgs, rows0, Trimmed(rows, n, models, i), before, after[n := l], n + 1)
  {
    hide *;
    StepsOf(cfgs, rows0, rows, before, after, n);
    ModelsLoad(rows0, rows, n, after, models, cfgs[n].len);
    LoadKeepsRows(rows0, rows, n, after, models, cfgs[n].len);
    var l, i := LoadedLayer(cfgs[n].len, models), LoadedSize(cfgs[n].len, models) + 1;
    StepLoaded(cfgs, rows0, before, after, n, l);
    ProgressOf(cfgs, rows0, Trimmed(rows, n, models, i), before, after[n := l], n + 1);
  }

  lemma {:induction false} ProgressBeyond<A(!new)>(cfgs: seq<Config<A>>, rows0: Rows<A>, rows: Rows<A>,
                                            before: seq<Layer<A>>, after: seq<Layer<A>>, n: nat)
    requires Progress(cfgs, rows0, rows, before, after, n) && n >= |cfgs| > 0 && HasRows(rows0, n)
    ensures Progress(cfgs, rows0, WithoutLayer(rows, n), before, after, n + 1)
  {
    hide LoadedFrom, OneRow;
    var next := n + 1;
    forall k | 0 <= k < |cfgs|
      ensures StepAt(cfgs, rows0, before, after, next, k)
    {
      assert StepAt(cfgs, rows0, before, after, n, k);
    }
    var kept := WithoutLayer(rows, n);
    forall k: nat, t
      ensures KeptAt(rows0, kept, next, after, k, t)
    {
      assert KeptAt(rows0, rows, n, after, k, t);
    }
  }

  lemma {:induction false} ProgressEnds<A(!new)>(cfgs: seq<Config<A>>, rows0: Rows<A>, rows: Rows<A>,
                                          before: seq<Layer<A>>, after: seq<Layer<A>>, n: nat)
    requires Progress(cfgs, rows0, rows, before, after, n) && !HasRows(rows0, n)
    ensures RestoreResult(true, cfgs, rows0, rows, before, after)
  {
    hide LoadedFrom, OneRow;
    forall k | 0 <= k < |cfgs|
      ensures RestoredAt(cfgs, rows0, before, after, k)
    {
      assert StepAt(cfgs, rows0, before, after, n, k);
    }
    if n == 0 {
      forall k | 0 <= k < |cfgs|
        ensures after[k] == before[k]
      {
        assert StepAt(cfgs, rows0, before, after, n, k);
      }
      forall key
        ensures (key in rows <==> key in rows0) && (key in rows && key in rows0 ==> rows[key] == rows0[key])
      {
        assert KeptAt(rows0, rows, n, after, key.0, key.1);
      }
      assert rows == rows0;
    }
  }

  lemma ProgressBegins<A(!new)>(cfgs: seq<Config<A>>, rows0: Rows<A>, before: seq<Layer<A>>)
    requires |cfgs| == |before|
    ensures Progress(cfgs, rows0, rows0, before, before, 0)
  {
    forall k | 0 <= k < |cfgs|
      ensures StepAt(cfgs, rows0, before, before, 0, k)
    {
    }
  }

  /** Layers not yet looked at are as they were. */
  lemma ProgressEmpty<A(!new)>(cfgs: seq<Config<A>>, rows0: Rows<A>, rows: Rows<A>, before: seq<Layer<A>>,
                        after: seq<Layer<A>>, n: nat)
    requires Progress(cfgs, rows0, rows, before, after, n) && n < |cfgs|
    ensures after[n] == before[n]
  {
    assert StepAt(cfgs, rows0, before, after, n, n);
  }

  lemma ProgressStarts<A(!new)>(cfgs: seq<Config<A>>, rows0: Rows<A>, rows: Rows<A>, before: seq<Layer<A>>,
                         after: seq<Layer<A>>)
    requires Progress(cfgs, rows0, rows, before, after, 0)
    ensures after == before
  {
    forall k | 0 <= k < |cfgs|
      ensures after[k] == before[k]
    {
      assert StepAt(cfgs, rows0, before, after, 0, k);
    }
  }

  /** What a step of the loop learns from a layer's rows. */
  lemma {:induction false} ProgressReads<A(!new)>(cfgs: seq<Config<A>>, rows0: Rows<A>, rows: Rows<A>,
                                           before: seq<Layer<A>>, after: seq<Layer<A>>,
                               n: nat, models: seq<Entry<A>>)
    requires Progress(cfgs, rows0, rows, before, after, n) && IsModels(rows, n, models)
    ensures models != [] <==> HasRows(rows0, n)
    ensures models != [] ==> Pending(rows0, n + 1) < Pending(rows0, n)
    ensures n == 0 && |models| == 1 ==> OneRow(rows0, 0)
  {
    RowsNotYetLost(rows0, rows, n, after);
    SameModels(rows0, rows, n, models);
    if models != [] {
      PendingShrinks(rows0, n);
    }
  }

  /** A storage that finds no table, or only start rows, begins anew; one that finds a saved history goes on from
      it. An existing table without rows of the first layer stays as it is, and is no mirror; one with data is a
      mirror afterwards just when it had rows for every layer. */
  lemma {:induction false} RestoreGives<A(!new)>(exist: bool, cfgs: seq<Config<A>>, rows0: Rows<A>, rows: Rows<A>,
                                          before: seq<Layer<A>>,
                              after: seq<Layer<A>>, savedStart: Time, saved: seq<Entry<A>>)
    requires RestoreResult(exist, cfgs, rows0, rows, before, after) && AllEmpty(before)
    requires cfgs != [] && WellConfigured(cfgs) && |cfgs| == |before|
    ensures Found(exist, rows0).NewTable? || Found(exist, rows0).StartOnly? ==>
      after == before && Mirror(rows, 0, after)
    ensures exist && Saves(rows0, cfgs, savedStart, saved) && saved != []
        ==> Found(exist, rows0).Data? && after == Cascade(cfgs, savedStart, saved) && Mirror(rows, 0, after)
    ensures Found(exist, rows0).NothingFound? ==> after == before && rows == rows0 && !Mirror(rows, 0, after)
    ensures Found(exist, rows0).Data? ==> (Mirror(rows, 0, after) <==> AllHaveRows(rows0, |cfgs| - 1))
  {
    if Found(exist, rows0).NothingFound? {
      NotMirrored(rows, after);
    }
    if Found(exist, rows0).Data? {
      RestoredIsMirrored(cfgs, rows0, rows, before, after);
    }
    if Found(exist, rows0).NewTable? || Found(exist, rows0).StartOnly? {
      StartsMirror(rows, after, 0);
      assert after[0..] == after;
    }
    if exist && Saves(rows0, cfgs, savedStart, saved) && saved != [] {
      var layers := Cascade(cfgs, savedStart, saved);
      HistoryIsCoherent(cfgs, savedStart, saved);
      DataHasTwoRows(rows0, layers);
      RestoringMirror(cfgs, rows0, rows, before, after, layers);
    }
  }

  /** What `Restore` does to the layers and to the table. */
  ghost predicate RestoreResult<A(!new)>(exist: bool, cfgs: seq<Config<A>>, rows0: Rows<A>, rows: Rows<A>,
                                         before: seq<Layer<A>>, after: seq<Layer<A>>)
  {
    match Found(exist, rows0)
    case NewTable | StartOnly => after == before && OnlyStarts(rows, after)
    case NothingFound => after == before && rows == rows0
    case Data => IsRestored(cfgs, rows0, rows, before, after)
  }

  /** Starting anew is what a table calls for that is new, or has one row of the first layer. */
  lemma StartResult<A(!new)>(exist: bool, cfgs: seq<Config<A>>, rows0: Rows<A>, rows: Rows<A>, layers: seq<Layer<A>>)
    requires OnlyStarts(rows, layers) && (exist ==> OneRow(rows0, 0))
    ensures RestoreResult(exist, cfgs, rows0, rows, layers, layers)
  {
  }

  lemma SavedRises<A>(rows: Rows<A>, cfgs: seq<Config<A>>, start: Time, history: seq<Entry<A>>)
    requires WellConfigured(cfgs) && Saves(rows, cfgs, start, history)
    ensures Rising(start, history)
  {
  }

  class Stat<A(!new)> {
    const layers: seq<LayerStat<A>>
    const blank: A
    const db: Database<A>
    /** When the storage began, and everything appended since. */
    ghost var start: Time
    ghost var history: seq<Entry<A>>

    /** The layers form a chain over the table. */
    ghost predicate Valid()
      reads FootprintOf(layers)
    {
      && layers != [] && Linked(layers) && Settled(layers) && layers[0].layerNum == 0 && layers[0].db == db
      && this !in FootprintOf(layers) && WellConfigured(Configs(layers))
    }

    /** The layers hold just what the history determines. */
    ghost predicate Recorded()
      reads this, FootprintOf(layers)
    {
      Valid() && Rising(start, history) && Views(layers) == Cascade(Configs(layers), start, history)
    }

    /** The table holds just the rows of the layers. */
    ghost predicate Mirrored()
      reads this, FootprintOf(layers), db
    {
      Valid() && Mirror(db.rows, 0, Views(layers))
    }

    constructor (cfgs: seq<Config<A>>, blank: A, startTime: Time, db: Database<A>)
      requires cfgs != [] && WellConfigured(cfgs)
      ensures Recorded() && start == startTime && history == []
      ensures Configs(layers) == cfgs && this.db == db && fresh(FootprintOf(layers))
    {
      FreshIsCascade(cfgs, startTime);
      hide Linked, Settled, Cascade, Fresh, WellConfigured, Views, FootprintOf, Configs;
      var built := BuildLayers(cfgs, blank, startTime, db);
      layers, this.blank, this.db := built, blank, db;
      start, history := startTime, [];
      new;
      NotALayer(built);
    }

    lemma NotALayer(chain: seq<LayerStat<A>>)
      ensures this !in FootprintOf(chain)
    {
      forall k | 0 <= k < |chain|
        ensures this !in chain[k].Footprint()
      {
        assert this as object != chain[k] && this as object != chain[k].ringAxes
          && this as object != chain[k].ringTimes;
      }
      Unowned(chain, this);
    }

    /** Adds the newest axis, if there is one. */
    method Append(axis: Option<A>, endTime: Time)
      requires Recorded() && TimeBefore(start, history, |history|) < endTime
      modifies this, FootprintOf(layers), db
      ensures Recorded() && start == old(start) && (old(Mirrored()) ==> Mirrored())
      ensures history == if axis.None? then old(history) else old(history) + [Entry(endTime, axis.value)]
      ensures axis.None? ==> db.rows == old(db.rows)
    {
      hide Layers.Append, StoreAppend, Cascade, Mirror, Rising, WellConfigured, TimeBefore, Configs;
      if axis.None? {
        return;
      }
      ghost var cfgs, e := Configs(layers), Entry(endTime, axis.value);
      AppendSaves(cfgs, start, history, e, db.rows);
      layers[0].Append(axis.value, endTime, layers);
      history := history + [e];
    }

    /** The stored segments that touch a window. */
    method RangeRoot(startTime: Time, endTime: Time) returns (times: seq<Time>, axes: seq<A>)
      requires Recorded() && startTime < endTime
      ensures var hits := Hits(AllSegments(AfterRun(Configs(layers), start, history)), startTime, endTime);
        times == Times(hits) && axes == SegmentAxes(hits)
    {
      hide Linked, Settled, Rising, Cascade, AfterRun, RisingAll, WellConfigured, AllSegments, Hits, Times, SegmentAxes,
        Views,
        Configs, FootprintOf;
      HistoryIsRun(Configs(layers), start, history);
      times, axes := layers[0].Range(startTime, endTime, layers);
      Untouched(layers);
    }

    /** Brings the layers back from the table when the process starts. If the table saves a history with data,
        the storage goes on from it; without a table, or with only a start row, it begins anew. A table that exists
        but has no rows of the first layer is left without start rows, so that nothing mirrors the layers. */
    method Restore(exist: bool, ghost savedStart: Time, ghost saved: seq<Entry<A>>)
      requires Recorded() && history == [] && (!exist ==> db.rows == map[])
      modifies this, FootprintOf(layers), db
      ensures Valid() && RestoreResult(exist, Configs(layers), old(db.rows), db.rows, old(Views(layers)), Views(layers))
      ensures Found(exist, old(db.rows)).NewTable? || Found(exist, old(db.rows)).StartOnly?
          ==> Recorded() && Mirrored() && start == old(start) && history == []
      ensures exist && Saves(old(db.rows), Configs(layers), savedStart, saved) && saved != []
          ==> Recorded() && Mirrored() && start == savedStart && history == saved
      ensures Found(exist, old(db.rows)).NothingFound?
          ==> Recorded() && !Mirrored() && start == old(start) && history == [] && db.rows == old(db.rows)
      ensures Found(exist, old(db.rows)).Data? ==> (Mirrored() <==> AllHaveRows(old(db.rows), |layers| - 1))
    {
      ghost var cfgs, rows0, before := Configs(layers), db.rows, Views(layers);
      NothingHeld();
      hide Linked, Settled, Cascade, Rising, WellConfigured, Views, Configs, FootprintOf, AllEmpty, Mirror,
        RestoreResult, Saves,
        Found;
      Reload(exist);
      RestoreGives(exist, cfgs, rows0, db.rows, before, Views(layers), savedStart, saved);
      NotALayer(layers);
      if exist && Saves(rows0, cfgs, savedStart, saved) && saved != [] {
        SavedRises(rows0, cfgs, savedStart, saved);
        Resume(savedStart, saved);
      }
    }

    lemma NothingHeld()
      requires Recorded() && history == []
      ensures AllEmpty(Views(layers))
    {
      NoHistory(Configs(layers), start);
    }

    /** Takes a history whose layers these are for the storage's own. */
    ghost method Resume(savedStart: Time, saved: seq<Entry<A>>)
      requires Valid() && Rising(savedStart, saved) && Views(layers) == Cascade(Configs(layers), savedStart, saved)
      requires Mirror(db.rows, 0, Views(layers)) && this !in FootprintOf(layers)
      modifies `start, `history
      ensures Recorded() && Mirrored() && start == savedStart && history == saved && Views(layers) == old(Views(layers))
    {
      hide Linked, Settled, Cascade, Rising, WellConfigured, Views, Configs, FootprintOf, Mirror;
      start, history := savedStart, saved;
      Untouched(layers);
    }

    method Reload(exist: bool)
      requires Valid() && AllEmpty(Views(layers)) && (!exist ==> db.rows == map[])
      modifies FootprintOf(layers), db
      ensures Valid() && RestoreResult(exist, Configs(layers), old(db.rows), db.rows, old(Views(layers)), Views(layers))
    {
      hide Linked, Settled, Views, Configs, FootprintOf, AllEmpty, RestoreResult;
      if exist {
        LoadAll();
      } else {
        CreateStartModels();
        StartResult(exist, Configs(layers), old(db.rows), db.rows, Views(layers));
      }
    }

    /** Loads the layers one by one until one has no rows; layers that do not exist lose their rows. */
    method LoadAll()
      requires Valid() && AllEmpty(Views(layers))
      modifies FootprintOf(layers), db
      ensures Valid() && RestoreResult(true, Configs(layers), old(db.rows), db.rows, old(Views(layers)), Views(layers))
    {
      ghost var cfgs, rows0, before := Configs(layers), db.rows, Views(layers);
      ProgressBegins(cfgs, rows0, before);
      hide Linked, Settled, Views, Configs, FootprintOf, WellConfigured, RestoreResult, Pending, Progress;
      var layerNum, more := 0, true;
      while more
        invariant Valid() && if more then Progress(cfgs, rows0, db.rows, before, Views(layers), layerNum)
                             else RestoreResult(true, cfgs, rows0, db.rows, before, Views(layers))
        decreases more, Pending(rows0, layerNum)
      {
        more := LoadNext(layerNum, rows0, before);
        layerNum := layerNum + 1;
      }
    }

    /** Looks at one layer's rows: `more` says to go on with the next layer. */
    method LoadNext(layerNum: nat, ghost rows0: Rows<A>, ghost before: seq<Layer<A>>) returns (more: bool)
      requires Valid() && AllEmpty(before) && |before| == |layers|
      requires Progress(Configs(layers), rows0, db.rows, before, Views(layers), layerNum)
      modifies FootprintOf(layers), db
      ensures Valid()
      ensures more ==> Progress(Configs(layers), rows0, db.rows, before, Views(layers), layerNum + 1)
      ensures more ==> Pending(rows0, layerNum + 1) < Pending(rows0, layerNum)
      ensures !more ==> RestoreResult(true, Configs(layers), rows0, db.rows, before, Views(layers))
    {
      ghost var cfgs, rows, views := Configs(layers), db.rows, Views(layers);
      hide Linked, Settled, Views, Configs, FootprintOf, WellConfigured, RestoreResult, IsModels, Pending, Progress,
        HasRows, OneRow,
        Trimmed, OnlyStarts, LoadedLayer, LoadedSize;
      var models := db.FindOrderByTime(layerNum);
      ProgressReads(cfgs, rows0, rows, before, views, layerNum, models);
      if |models| == 0 {
        ProgressEnds(cfgs, rows0, rows, before, views, layerNum);
        Untouched(layers);
        return false;
      }
      if layerNum >= |layers| {
        db.DeleteLayer(layerNum);
        Untouched(layers);
        ProgressBeyond(cfgs, rows0, rows, before, views, layerNum);
        return true;
      }
      if layerNum == 0 && |models| == 1 {
        db.Clear();
        Untouched(layers);
        CreateStartModels();
        ProgressStarts(cfgs, rows0, rows, before, views);
        StartResult(true, cfgs, rows0, db.rows, views);
        return false;
      }
      ProgressLoaded(cfgs, rows0, rows, before, views, layerNum, models);
      ProgressEmpty(cfgs, rows0, rows, before, views, layerNum);
      Untouched(layers);
      LoadLayer(layerNum, models);
      return true;
    }

    /** Inserts a row for each layer's start time. */
    method CreateStartModels()
      requires Valid() && db.rows == map[]
      modifies db
      ensures Valid() && Views(layers) == old(Views(layers)) && OnlyStarts(db.rows, Views(layers))
    {
      ghost var views := Views(layers);
      for i := 0 to |layers|
        invariant forall key :: key in db.rows <==> key.0 < i && key.1 == views[key.0].startTime
      {
        ViewAt(layers, i);
        Untouched(layers);
        db.Insert(i, layers[i].startTime, blank);
      }
      Untouched(layers);
    }

    /** Loads one layer from its rows. */
    method LoadLayer(k: nat, models: seq<Entry<A>>)
      requires Valid() && k < |layers| && Views(layers)[k].queue == [] && models != []
      modifies FootprintOf(layers), db
      ensures Valid()
      ensures Views(layers) == old(Views(layers))[k := LoadedLayer(Configs(layers)[k].len, models)]
      ensures db.rows == Trimmed(old(db.rows), k, models, LoadedSize(Configs(layers)[k].len, models) + 1)
    {
      hide Linked, Settled, Trimmed, LoadedLayer, LoadedSize, FootprintOf, Views, Configs;
      LinkedLayers(layers, 0);
      ViewAt(layers, k);
      assert SoundAt(layers, k) && PlacedAt(layers, 0, k) && PlacedAt(layers, 0, 0);
      HeadApart(layers, 0);
      InFootprint(layers, k);
      AllViews(layers);
      layers[k].Load(models);
      OneChanged(layers, k);
    }
  }

  /** Layer `k` of a new chain. */
  ghost predicate NewAt<A>(layers: seq<LayerStat<A>>, cfgs: seq<Config<A>>, startTime: Time, k: nat)
    requires k < |layers| && k < |cfgs|
    reads layers[k].Footprint()
  {
    SoundAt(layers, k) && layers[k].View() == Layer(startTime, []) && layers[k].conf == cfgs[k]
  }

  lemma PlacedExtend<A>(before: seq<LayerStat<A>>, x: LayerStat<A>)
    requires Placed(before, 0) && x.layerNum == |before| && x.db !in x.Footprint()
    requires before != [] ==> x.db == before[0].db
    requires 1 <= x.conf.len && (before != [] ==> Last(before).conf.ratio <= Last(before).conf.len)
    requires forall k :: 0 <= k < |before| ==> before[k].Footprint() !! x.Footprint()
    ensures Placed(before + [x], 0)
  {
    var longer := before + [x];
    forall k | 0 <= k < |longer|
      ensures PlacedAt(longer, 0, k)
    {
      assert k < |before| ==> PlacedAt(before, 0, k);
    }
  }

  /** Links a new layer behind the last. */
  method LinkBehind<A>(before: seq<LayerStat<A>>, x: LayerStat<A>, ghost cfgs: seq<Config<A>>, ghost startTime: Time)
    requires before != [] && |before| < |cfgs| && Placed(before + [x], 0) && NewAt([x], [cfgs[|before|]], startTime, 0)
    requires forall k :: 0 <= k < |before| ==> NewAt(before, cfgs, startTime, k)
    modifies before[|before| - 1]
    ensures forall k :: 0 <= k <= |before| ==> NewAt(before + [x], cfgs, startTime, k)
  {
    ghost var longer: seq<LayerStat<A>>, last := before + [x], |before| - 1;
    var end: LayerStat<A> := Last(before);
    end.next := x;
    assert PlacedAt(longer, 0, last);
    forall k | 0 <= k <= |before|
      ensures NewAt(longer, cfgs, startTime, k)
    {
      if k < last {
        assert PlacedAt(longer, 0, k) && old(NewAt(before, cfgs, startTime, k));
        assert before[last] !in before[k].Footprint() by {
          assert before[last] in longer[last].Footprint();
        }
      } else if k == last {
        assert old(NewAt(before, cfgs, startTime, last));
      } else {
        assert before[last] !in x.Footprint() by {
          assert before[last] in longer[last].Footprint() && longer[last + 1] == x;
        }
        assert old(NewAt([x], [cfgs[|before|]], startTime, 0));
      }
    }
  }

  /** New layers, each linked to the next. */
  method BuildLayers<A>(cfgs: seq<Config<A>>, blank: A, startTime: Time, db: Database<A>)
    returns (layers: seq<LayerStat<A>>)
    requires cfgs != [] && WellConfigured(cfgs)
    ensures layers != [] && Linked(layers) && Settled(layers) && layers[0].layerNum == 0 && layers[0].db == db
    ensures fresh(FootprintOf(layers)) && Configs(layers) == cfgs && Views(layers) == Fresh(cfgs, startTime)
  {
    layers := [];
    for i := 0 to |cfgs|
      invariant |layers| == i && Placed(layers, 0) && (i > 0 ==> layers[0].db == db)
      invariant forall k :: 0 <= k < i ==> NewAt(layers, cfgs, startTime, k)
      invariant forall k :: 0 <= k < i ==> fresh(layers[k].Footprint())
    {
      assert i > 0 ==> NewAt(layers, cfgs, startTime, i - 1);
      var layer := new LayerStat(i, cfgs[i], blank, startTime, db);
      PlacedExtend(layers, layer);
      if i > 0 {
        LinkBehind(layers, layer, cfgs, startTime);
      }
      layers := layers + [layer];
    }
    forall k | 0 <= k < |layers|
      ensures SoundAt(layers, k)
    {
      assert NewAt(layers, cfgs, startTime, k);
    }
    LayersAreLinked(layers, 0);
    NewLayers(layers, cfgs, startTime);
    forall o | o in FootprintOf(layers)
      ensures fresh(o)
    {
      var k := OwnerOf(layers, o);
    }
    assert PlacedAt(layers, 0, 0);
  }

  lemma NewLayers<A>(layers: seq<LayerStat<A>>, cfgs: seq<Config<A>>, startTime: Time)
    requires |layers| == |cfgs| && forall k :: 0 <= k < |layers| ==> NewAt(layers, cfgs, startTime, k)
    ensures Configs(layers) == cfgs && Views(layers) == Fresh(cfgs, startTime)
  {
    forall k | 0 <= k < |layers|
      ensures Configs(layers)[k] == cfgs[k] && Views(layers)[k] == Fresh(cfgs, startTime)[k]
    {
      ViewAt(layers, k);
      FreshAt(cfgs, startTime, k);
      assert NewAt(layers, cfgs, startTime, k);
    }
  }

  lemma {:induction false} FreshAt<A>(cfgs: seq<Config<A>>, startTime: Time, k: nat)
    requires k < |cfgs|
    ensures Fresh(cfgs, startTime)[k] == Layer(startTime, [])
  {
    if k > 0 {
      FreshAt(cfgs[1..], startTime, k - 1);
    }
  }
}
