/** The processing order of `BGPDownloader.warm_update_process` (main.py): build the
    initial RIBs, dump the observers at the start, then apply the update files timestamp
    by timestamp, dumping at checkpoint times and stopping once every collector has
    passed the end of the window; finally, when the end is a RIB time, build the
    ground-truth table and compare. The `files` index of the source becomes, per update
    timestamp in ascending order, the collectors having an update file then, in name
    order, each with the records of its file. */
module Downloader {
  import opened Common
  import opened AsPath
  import opened ObserverApi
  import opened Graph
  import opened PathCount
  import opened UpdateCount
  import opened Observers
  import opened Rib
  import opened Tables
  import opened Schedule

  /** The update files of one update timestamp. */
  datatype UpdateStep = UpdateStep(ts: int, files: CollectorFiles)

  /** `all(rib_table.stop_updating.values())`; true of an empty map, as in Python. */
  predicate AllStopped(stop: map<string, bool>) {
    forall rc | rc in stop :: stop[rc]
  }

  /** The outcome of the update loop: the table and stop flags it leaves, the hook calls
      it made, how many timestamps it processed, the times at which it dumped, and the
      exception that ended it, if any. */
  datatype Run = Run(table: Table, stop: map<string, bool>, events: seq<Event>,
                     processed: nat, dumps: seq<int>, err: Option<PyError>)

  /** The `for ts in ris_timestamps` loop: update; dump when `ts` is a checkpoint; break
      once every collector has stopped. An exception of `update` ends the loop before the
      dump. */
  function RunSteps(steps: seq<UpdateStep>, checkpoints: seq<int>, table: Table,
                    stop: map<string, bool>, cfg: Config): (r: Run)
    ensures r.processed <= |steps| && (|steps| > 0 ==> r.processed >= 1)
    decreases |steps|
  {
    if |steps| == 0 then Run(table, stop, [], 0, [], None)
    else
      var u := UpdateTable(steps[0].files, table, stop, cfg);
      var here := if steps[0].ts in checkpoints then [steps[0].ts] else [];
      if u.err.Some? then Run(u.table, u.stop, u.events, 1, [], u.err)
      else if AllStopped(u.stop) then Run(u.table, u.stop, u.events, 1, here, None)
      else
        var rest := RunSteps(steps[1..], checkpoints, u.table, u.stop, cfg);
        Run(rest.table, rest.stop, u.events + rest.events, rest.processed + 1, here + rest.dumps, rest.err)
  }

  /** The update files of several timestamps, one after the other. */
  function Concat(steps: seq<UpdateStep>): CollectorFiles
    decreases |steps|
  {
    if |steps| == 0 then [] else steps[0].files + Concat(steps[1..])
  }

  /** The timestamps of `steps` that are checkpoints, in order. */
  function CheckpointTimes(steps: seq<UpdateStep>, checkpoints: seq<int>): seq<int>
    decreases |steps|
  {
    if |steps| == 0 then []
    else (if steps[0].ts in checkpoints then [steps[0].ts] else []) + CheckpointTimes(steps[1..], checkpoints)
  }

  /** `update` over two lists of files is `update` over the first, then over the second
      from where the first left off, unless the first raised. */
  lemma {:induction false} UpdateTableAppend(a: CollectorFiles, b: CollectorFiles, table: Table,
                                             stop: map<string, bool>, cfg: Config)
    ensures var ua := UpdateTable(a, table, stop, cfg);
            var ub := UpdateTable(b, ua.table, ua.stop, cfg);
            UpdateTable(a + b, table, stop, cfg)
              == if ua.err.Some? then ua else TableUpdate(ub.table, ub.stop, ua.events + ub.events, ub.err)
    decreases |b|
  {
    var ua := UpdateTable(a, table, stop, cfg);
    if |b| == 0 {
      assert a + b == a;
    } else {
      var b' := b[..|b| - 1];
      assert (a + b)[..|a + b| - 1] == a + b';
      assert (a + b)[|a + b| - 1] == b[|b| - 1];
      UpdateTableAppend(a, b', table, stop, cfg);
      if ua.err.None? {
        var ub' := UpdateTable(b', ua.table, ua.stop, cfg);
        if ub'.err.None? {
          var (rc, records) := b[|b| - 1];
          if rc in ub'.table {
            var run := UpdateFile(records, ub'.table[rc], rc, cfg);
            EventsAssoc(ua.events, ub'.events, run.events);
          }
        }
      }
    }
  }

  lemma ConcatFirst(steps: seq<UpdateStep>, p: nat)
    requires 0 < p <= |steps|
    ensures Concat(steps[..p]) == steps[0].files + Concat(steps[1..][..p - 1])
  {
    assert steps[..p][1..] == steps[1..][..p - 1];
  }

  /** The update loop is one `update` over the files of the timestamps it processed,
      concatenated in timestamp order: there is no merge of records across collectors or
      timestamps. */
  lemma {:induction false} RunIsOneUpdate(steps: seq<UpdateStep>, checkpoints: seq<int>, table: Table,
                                          stop: map<string, bool>, cfg: Config)
    ensures OneUpdate(steps, checkpoints, table, stop, cfg)
    decreases |steps|
  {
    if |steps| > 0 {
      var u0 := UpdateTable(steps[0].files, table, stop, cfg);
      if u0.err.None? && !AllStopped(u0.stop) {
        RunIsOneUpdate(steps[1..], checkpoints, u0.table, u0.stop, cfg);
        OneUpdateMore(steps, checkpoints, table, stop, cfg);
      } else {
        var r := RunSteps(steps, checkpoints, table, stop, cfg);
        assert r.table == u0.table && r.stop == u0.stop && r.events == u0.events && r.err == u0.err;
        assert r.processed == 1;
        assert steps[..1] == [steps[0]] && steps[1..][..0] == [];
        assert Concat([steps[0]]) == steps[0].files + [];
        assert steps[0].files + [] == steps[0].files;
      }
    }
  }

  /** What `RunIsOneUpdate` states of one run. */
  ghost predicate OneUpdate(steps: seq<UpdateStep>, checkpoints: seq<int>, table: Table,
                            stop: map<string, bool>, cfg: Config)
  {
    var r := RunSteps(steps, checkpoints, table, stop, cfg);
    var u := UpdateTable(Concat(steps[..r.processed]), table, stop, cfg);
    r.table == u.table && r.stop == u.stop && r.events == u.events && r.err == u.err
  }

  /** The step of `RunIsOneUpdate` past a first timestamp that neither raised nor stopped
      every collector. */
  lemma OneUpdateMore(steps: seq<UpdateStep>, checkpoints: seq<int>, table: Table,
                      stop: map<string, bool>, cfg: Config)
    requires |steps| > 0
    requires var u0 := UpdateTable(steps[0].files, table, stop, cfg);
             u0.err.None? && !AllStopped(u0.stop) && OneUpdate(steps[1..], checkpoints, u0.table, u0.stop, cfg)
    ensures OneUpdate(steps, checkpoints, table, stop, cfg)
  {
    var r := RunSteps(steps, checkpoints, table, stop, cfg);
    var u0 := UpdateTable(steps[0].files, table, stop, cfg);
    var rest := RunSteps(steps[1..], checkpoints, u0.table, u0.stop, cfg);
    assert r.table == rest.table && r.stop == rest.stop && r.err == rest.err;
    assert r.events == u0.events + rest.events && r.processed == rest.processed + 1;
    ConcatFirst(steps, r.processed);
    UpdateThen(steps[0].files, Concat(steps[1..][..rest.processed]), table, stop, cfg, rest);
  }

  /** `update` over `a + b`, when `a` raised nothing and `rest` is what `update` over `b`
      then leaves. */
  lemma UpdateThen(a: CollectorFiles, b: CollectorFiles, table: Table, stop: map<string, bool>,
                   cfg: Config, rest: Run)
    requires UpdateTable(a, table, stop, cfg).err.None?
    requires var ua := UpdateTable(a, table, stop, cfg);
             var ub := UpdateTable(b, ua.table, ua.stop, cfg);
             rest.table == ub.table && rest.stop == ub.stop && rest.events == ub.events && rest.err == ub.err
    ensures var ua := UpdateTable(a, table, stop, cfg);
            var u := UpdateTable(a + b, table, stop, cfg);
            u.table == rest.table && u.stop == rest.stop && u.events == ua.events + rest.events
            && u.err == rest.err
  {
    UpdateTableAppend(a, b, table, stop, cfg);
  }

  /** The update loop stops early only at the first timestamp after which every
      collector has stopped: it ends on an exception, on all collectors stopped, or
      after the last timestamp. */
  lemma {:induction false} RunStopsFirst(steps: seq<UpdateStep>, checkpoints: seq<int>, table: Table,
                                         stop: map<string, bool>, cfg: Config)
    ensures var r := RunSteps(steps, checkpoints, table, stop, cfg);
            && (r.err.None? && r.processed < |steps| ==> AllStopped(r.stop))
            && forall j :: 1 <= j < r.processed ==>
                 var uj := UpdateTable(Concat(steps[..j]), table, stop, cfg);
                 uj.err.None? && !AllStopped(uj.stop)
    decreases |steps|
  {
    if |steps| > 0 {
      var r := RunSteps(steps, checkpoints, table, stop, cfg);
      var u0 := UpdateTable(steps[0].files, table, stop, cfg);
      if u0.err.None? && !AllStopped(u0.stop) {
        var rest := RunSteps(steps[1..], checkpoints, u0.table, u0.stop, cfg);
        RunStopsFirst(steps[1..], checkpoints, u0.table, u0.stop, cfg);
        forall j | 1 <= j < r.processed
          ensures var uj := UpdateTable(Concat(steps[..j]), table, stop, cfg);
                  uj.err.None? && !AllStopped(uj.stop)
        {
          ConcatFirst(steps, j);
          UpdateTableAppend(steps[0].files, Concat(steps[1..][..j - 1]), table, stop, cfg);
          if j == 1 {
            assert steps[1..][..0] == [];
          }
        }
      }
    }
  }

  /** Without an exception, the loop dumps at exactly the processed timestamps that are
      checkpoints, in order. */
  lemma {:induction false} RunDumps(steps: seq<UpdateStep>, checkpoints: seq<int>, table: Table,
                                    stop: map<string, bool>, cfg: Config)
    ensures var r := RunSteps(steps, checkpoints, table, stop, cfg);
            r.err.None? ==> r.dumps == CheckpointTimes(steps[..r.processed], checkpoints)
    decreases |steps|
  {
    if |steps| > 0 {
      var r := RunSteps(steps, checkpoints, table, stop, cfg);
      var u0 := UpdateTable(steps[0].files, table, stop, cfg);
      CheckpointTimesPrefix(steps, checkpoints, r.processed);
      if u0.err.None? && !AllStopped(u0.stop) {
        RunDumps(steps[1..], checkpoints, u0.table, u0.stop, cfg);
      } else {
        assert steps[1..][..0] == [];
      }
    }
  }

  /** The checkpoint times of the first `n` timestamps: the first one's, then those of the
      next `n - 1`. */
  lemma CheckpointTimesPrefix(steps: seq<UpdateStep>, checkpoints: seq<int>, n: int)
    requires 1 <= n <= |steps|
    ensures CheckpointTimes(steps[..n], checkpoints)
            == (if steps[0].ts in checkpoints then [steps[0].ts] else [])
               + CheckpointTimes(steps[1..][..n - 1], checkpoints)
  {
    assert steps[..n][1..] == steps[1..][..n - 1];
  }

  /** A time is dumped at exactly when it is a checkpoint and one of the update timestamps. */
  lemma {:induction false} CheckpointTimesAre(steps: seq<UpdateStep>, checkpoints: seq<int>, t: int)
    ensures t in CheckpointTimes(steps, checkpoints) <==>
            t in checkpoints && exists i :: 0 <= i < |steps| && steps[i].ts == t
    decreases |steps|
  {
    if |steps| > 0 {
      CheckpointTimesAre(steps[1..], checkpoints, t);
      if exists i :: 0 <= i < |steps| && steps[i].ts == t {
        var i :| 0 <= i < |steps| && steps[i].ts == t;
        if i > 0 {
          assert steps[1..][i - 1] == steps[i];
        }
      }
      if exists i :: 0 <= i < |steps[1..]| && steps[1..][i].ts == t {
        var i :| 0 <= i < |steps[1..]| && steps[1..][i].ts == t;
        assert steps[i + 1].ts == t;
      }
    }
  }

  /** With a positive interval, every dump of the update loop falls inside the window
      `(ts_start, ts_end]`, a whole number of intervals after the start. */
  lemma DumpsWithinWindow(steps: seq<UpdateStep>, start: int, end: int, interval: int, t: int)
    requires interval > 0
    requires t in CheckpointTimes(steps, Checkpoints(start, end, interval).value)
    ensures start < t <= end && (t - start) % interval == 0
  {
    CheckpointsWithin(start, end, interval);
    CheckpointTimesAre(steps, Checkpoints(start, end, interval).value, t);
  }

  /** One round of `RunSteps` from the `k`-th timestamp on. */
  lemma RunStepsUnfold(steps: seq<UpdateStep>, k: nat, checkpoints: seq<int>, table: Table,
                       stop: map<string, bool>, cfg: Config)
    requires k < |steps|
    ensures var u := UpdateTable(steps[k].files, table, stop, cfg);
            var here := if steps[k].ts in checkpoints then [steps[k].ts] else [];
            var next := RunSteps(steps[k + 1..], checkpoints, u.table, u.stop, cfg);
            RunSteps(steps[k..], checkpoints, table, stop, cfg)
              == if u.err.Some? then Run(u.table, u.stop, u.events, 1, [], u.err)
                 else if AllStopped(u.stop) then Run(u.table, u.stop, u.events, 1, here, None)
                 else Run(next.table, next.stop, u.events + next.events, next.processed + 1, here + next.dumps, next.err)
  {
    assert steps[k..][0] == steps[k] && steps[k..][1..] == steps[k + 1..];
  }

  /** What is left of the loop after the round at `steps[k]`, which made the update `u`. */
  ghost function AfterStep(steps: seq<UpdateStep>, k: nat, checkpoints: seq<int>, cfg: Config,
                           u: TableUpdate, stopped: bool): Run
    requires k < |steps|
  {
    if u.err.Some? || stopped then Run(u.table, u.stop, [], 0, [], u.err)
    else RunSteps(steps[k + 1..], checkpoints, u.table, u.stop, cfg)
  }

  /** One round of the update loop moves the run `r0` forward by its update and dump. */
  lemma LoopStepRun(steps: seq<UpdateStep>, k: nat, checkpoints: seq<int>, table: Table,
                    stop: map<string, bool>, cfg: Config, r0: Run, evs: seq<Event>, dumps: seq<int>,
                    u: TableUpdate, dumped: seq<int>, stopped: bool)
    requires k < |steps|
    requires Splits(r0, RunSteps(steps[k..], checkpoints, table, stop, cfg), evs, k, dumps)
    requires u == UpdateTable(steps[k].files, table, stop, cfg)
    requires dumped == if u.err.None? && steps[k].ts in checkpoints then [steps[k].ts] else []
    requires stopped == (u.err.None? && AllStopped(u.stop))
    ensures Splits(r0, AfterStep(steps, k, checkpoints, cfg, u, stopped), evs + u.events, k + 1, dumps + dumped)
  {
    RunStepsUnfold(steps, k, checkpoints, table, stop, cfg);
    var next := AfterStep(steps, k, checkpoints, cfg, u, stopped);
    EventsAssoc(evs, u.events, next.events);
    TimesAssoc(dumps, dumped, next.dumps);
    if u.err.Some? || stopped {
      assert u.events + [] == u.events && dumped + [] == dumped;
    }
  }

  lemma TimesAssoc(a: seq<int>, b: seq<int>, c: seq<int>)
    ensures a + b + c == a + (b + c)
  {
  }

  /** The states of `obs` have not moved since the last time they were reached. */
  lemma AdvancedUnmoved(obs: seq<Observer>, s0: map<Observer, State>, es: seq<Event>,
                        before: map<Observer, State>)
    requires forall o | o in obs :: o in s0 && o in before && before[o] == RepeatAll(s0[o], es, multiset(obs)[o])
    requires StatesOf(obs) == before
    ensures Advanced(obs, s0, es)
  {
  }

  /** `rib_table.dump(ts)` in the middle of a run: the observers keep the states the run
      has brought them to. */
  method DumpAt(rib: RIBTable, ts: int, ghost s0: map<Observer, State>, ghost evs: seq<Event>)
    returns (err: Option<PyError>)
    requires AllValid(rib.observers) && Advanced(rib.observers, s0, evs)
    modifies rib
    ensures AllValid(rib.observers) && Advanced(rib.observers, s0, evs)
    ensures rib.observers == old(rib.observers) && rib.data == old(rib.data)
    ensures rib.stopUpdating == old(rib.stopUpdating)
    ensures err == FirstDumpError(rib.observers)
  {
    ghost var before := StatesOf(rib.observers);
    assert forall o | o in rib.observers :: before[o] == StateOf(o);
    err := rib.NotifyDump(ts);
    AdvancedUnmoved(rib.observers, s0, evs, before);
  }

  /** `rib_table.update(rc_to_url)` in the middle of a run: the observers move on by the
      calls of this update. */
  method UpdateAt(rib: RIBTable, files: CollectorFiles, ghost s0: map<Observer, State>, ghost evs: seq<Event>)
    returns (err: Option<PyError>, ghost u: TableUpdate)
    requires AllValid(rib.observers) && Advanced(rib.observers, s0, evs)
    modifies rib, Targets(rib.observers)
    ensures AllValid(rib.observers) && rib.observers == old(rib.observers)
    ensures u == UpdateTable(files, old(rib.data), old(rib.stopUpdating), rib.cfg)
    ensures rib.data == u.table && rib.stopUpdating == u.stop && err == u.err
    ensures Advanced(rib.observers, s0, evs + u.events)
  {
    assert forall o | o in rib.observers :: allocated(o.Target());
    ghost var mid := StatesOf(rib.observers);
    AdvancedStates(rib.observers, s0, evs);
    u := UpdateTable(files, rib.data, rib.stopUpdating, rib.cfg);
    err := rib.Update(files);
    AdvancedThen(rib.observers, s0, mid, evs, u.events);
  }

  /** One round of the update loop: update, dump at a checkpoint, and tell whether every
      collector has now stopped. */
  method LoopStep(rib: RIBTable, step: UpdateStep, checkpoints: seq<int>, ghost s0: map<Observer, State>,
                  ghost evs: seq<Event>)
    returns (err: Option<PyError>, dumped: seq<int>, stopped: bool, ghost u: TableUpdate)
    requires AllValid(rib.observers) && FirstDumpError(rib.observers).None? && Advanced(rib.observers, s0, evs)
    modifies rib, Targets(rib.observers)
    ensures AllValid(rib.observers) && rib.observers == old(rib.observers)
    ensures u == UpdateTable(step.files, old(rib.data), old(rib.stopUpdating), rib.cfg)
    ensures rib.data == u.table && rib.stopUpdating == u.stop && err == u.err
    ensures dumped == if u.err.None? && step.ts in checkpoints then [step.ts] else []
    ensures stopped == (u.err.None? && AllStopped(u.stop))
    ensures Advanced(rib.observers, s0, evs + u.events)
  {
    err, u := UpdateAt(rib, step.files, s0, evs);
    dumped, stopped := [], false;
    if err.None? {
      if step.ts in checkpoints {
        err := DumpAt(rib, step.ts, s0, evs + u.events);
        dumped := [step.ts];
      }
      stopped := AllStopped(rib.stopUpdating);
    }
  }

  /** The run `r0` is the calls `evs`, the `k` timestamps and the dumps `dumps` done so
      far, followed by the run `rest` of the remaining timestamps. */
  ghost predicate Splits(r0: Run, rest: Run, evs: seq<Event>, k: nat, dumps: seq<int>) {
    r0 == Run(rest.table, rest.stop, evs + rest.events, k + rest.processed, dumps + rest.dumps, rest.err)
  }

  lemma SplitsStart(r0: Run)
    ensures Splits(r0, r0, [], 0, [])
  {
    assert [] + r0.events == r0.events && [] + r0.dumps == r0.dumps;
  }

  lemma SplitsEnd(r0: Run, rest: Run, evs: seq<Event>, k: nat, dumps: seq<int>)
    requires Splits(r0, rest, evs, k, dumps) && rest.events == [] && rest.processed == 0 && rest.dumps == []
    ensures r0 == Run(rest.table, rest.stop, evs, k, dumps, rest.err)
  {
    assert evs + [] == evs && dumps + [] == dumps;
  }

  /** One round of `UpdateLoop` at `steps[k]`, keeping the run `r0` of the whole loop
      split into what is done (`evs`, `dumps`) and what is left (`rest`). */
  method Round(rib: RIBTable, steps: seq<UpdateStep>, k: nat, checkpoints: seq<int>,
               ghost s0: map<Observer, State>, ghost evs0: seq<Event>, ghost r0: Run, ghost rest: Run,
               ghost evs: seq<Event>, dumps: seq<int>)
    returns (err: Option<PyError>, dumps': seq<int>, stopped: bool, ghost rest': Run, ghost evs': seq<Event>)
    requires k < |steps|
    requires AllValid(rib.observers) && FirstDumpError(rib.observers).None? && Advanced(rib.observers, s0, evs0 + evs)
    requires Splits(r0, rest, evs, k, dumps)
    requires rest == RunSteps(steps[k..], checkpoints, rib.data, rib.stopUpdating, rib.cfg)
    modifies rib, Targets(rib.observers)
    ensures AllValid(rib.observers) && rib.observers == old(rib.observers)
    ensures Advanced(rib.observers, s0, evs0 + evs')
    ensures Splits(r0, rest', evs', k + 1, dumps')
    ensures !(err.Some? || stopped) ==> rest' == RunSteps(steps[k + 1..], checkpoints, rib.data, rib.stopUpdating, rib.cfg)
    ensures err.Some? || stopped ==> rest' == Run(rib.data, rib.stopUpdating, [], 0, [], err)
  {
    ghost var table, stop := rib.data, rib.stopUpdating;
    var dumped;
    ghost var u;
    err, dumped, stopped, u := LoopStep(rib, steps[k], checkpoints, s0, evs0 + evs);
    EventsAssoc(evs0, evs, u.events);
    LoopStepRun(steps, k, checkpoints, table, stop, rib.cfg, r0, evs, dumps, u, dumped, stopped);
    rest' := AfterStep(steps, k, checkpoints, rib.cfg, u, stopped);
    evs' := evs + u.events;
    dumps' := dumps + dumped;
  }

  /** The `for ts in ris_timestamps` loop, from the table and flags the build left. */
  method UpdateLoop(rib: RIBTable, steps: seq<UpdateStep>, checkpoints: seq<int>,
                    ghost s0: map<Observer, State>, ghost evs0: seq<Event>)
    returns (dumps: seq<int>, processed: nat, err: Option<PyError>)
    requires AllValid(rib.observers) && FirstDumpError(rib.observers).None? && Advanced(rib.observers, s0, evs0)
    modifies rib, Targets(rib.observers)
    ensures AllValid(rib.observers) && rib.observers == old(rib.observers)
    ensures var r := RunSteps(steps, checkpoints, old(rib.data), old(rib.stopUpdating), rib.cfg);
            && dumps == r.dumps && processed == r.processed && err == r.err
            && rib.data == r.table && rib.stopUpdating == r.stop
            && Advanced(rib.observers, s0, evs0 + r.events)
  {
    ghost var r0 := RunSteps(steps, checkpoints, rib.data, rib.stopUpdating, rib.cfg);
    ghost var rest := r0;
    ghost var evs := [];
    SplitsStart(r0);
    assert evs0 + evs == evs0 && steps[0..] == steps;
    dumps, processed, err := [], 0, None;
    while processed < |steps|
      invariant processed <= |steps|
      invariant AllValid(rib.observers) && rib.observers == old(rib.observers)
      invariant Advanced(rib.observers, s0, evs0 + evs)
      invariant Splits(r0, rest, evs, processed, dumps)
      invariant err.None? && rest == RunSteps(steps[processed..], checkpoints, rib.data, rib.stopUpdating, rib.cfg)
    {
      var stopped;
      err, dumps, stopped, rest, evs := Round(rib, steps, processed, checkpoints, s0, evs0, r0, rest, evs, dumps);
      processed := processed + 1;
      if err.Some? || stopped {
        break;
      }
    }
    if processed == |steps| {
      assert steps[processed..] == [];
    }
    SplitsEnd(r0, rest, evs, processed, dumps);
  }

  /** `warm_update_process` up to the comparison: the checkpoint times (a zero interval
      raises before anything else), the build of the initial RIBs, the dump at the start,
      then the update loop. Returns the times at which the observers were dumped, the
      number of update timestamps processed, and the exception that ended the process, if
      any. */
  method WarmUpdate(rib: RIBTable, interval: int, initial: CollectorFiles, steps: seq<UpdateStep>)
    returns (dumps: seq<int>, processed: nat, err: Option<PyError>)
    requires AllValid(rib.observers)
    modifies rib, Targets(rib.observers)
    ensures AllValid(rib.observers) && rib.observers == old(rib.observers)
    ensures interval == 0 ==>
              && err == Some(ZeroDivisionError) && dumps == [] && processed == 0
              && rib.data == old(rib.data) && StatesOf(rib.observers) == old(StatesOf(rib.observers))
    ensures var b := BuildTable(initial, rib.cfg.peerIpFilter);
            interval != 0 && b.err.Some? ==>
              && err == b.err && dumps == [] && processed == 0
              && Advanced(rib.observers, old(StatesOf(rib.observers)), b.events)
    ensures var b := BuildTable(initial, rib.cfg.peerIpFilter);
            interval != 0 && b.err.None? && FirstDumpError(rib.observers).Some? ==>
              && err == FirstDumpError(rib.observers) && dumps == [] && processed == 0
              && rib.data == b.table
              && Advanced(rib.observers, old(StatesOf(rib.observers)), b.events)
    ensures interval != 0 && BuildTable(initial, rib.cfg.peerIpFilter).err.None?
            && FirstDumpError(rib.observers).None? ==>
              var b := BuildTable(initial, rib.cfg.peerIpFilter);
              var checkpoints := Checkpoints(rib.cfg.tsStart, rib.cfg.tsEnd, interval).value;
              var r := RunSteps(steps, checkpoints, b.table, map rc | rc in Collectors(initial) :: false, rib.cfg);
              && dumps == [rib.cfg.tsStart] + r.dumps && processed == r.processed && err == r.err
              && rib.data == r.table && rib.stopUpdating == r.stop
              && Advanced(rib.observers, old(StatesOf(rib.observers)), b.events + r.events)
  {
    dumps, processed := [], 0;
    var outputFiles := Checkpoints(rib.cfg.tsStart, rib.cfg.tsEnd, interval);
    if outputFiles.Err? {
      return [], 0, Some(outputFiles.error);
    }
    assert forall o | o in rib.observers :: allocated(o.Target());
    ghost var s0 := StatesOf(rib.observers);
    ghost var b := BuildTable(initial, rib.cfg.peerIpFilter);
    err := rib.Build(initial);
    if err.Some? {
      return;
    }
    err := DumpAt(rib, rib.cfg.tsStart, s0, b.events);
    if err.Some? {
      return;
    }
    var more;
    more, processed, err := UpdateLoop(rib, steps, outputFiles.value, s0, b.events);
    dumps := [rib.cfg.tsStart] + more;
  }

  /** The four observers of `warm_update_process`, new and empty. */
  method NewObservers(outputDir: string)
    returns (graph: ASGraphObserver, multigraph: ASMultiGraphObserver, counts: UpdateCountObserver,
             paths: PathObserver)
    ensures fresh(graph) && fresh(multigraph) && fresh(counts) && fresh(paths)
    ensures ObsValid(GraphObs(graph)) && ObsValid(MultiGraphObs(multigraph))
    ensures ObsValid(CountObs(counts)) && ObsValid(PathObs(paths))
    ensures graph.settings == BaseSettings("graph", outputDir) && graph.multigraph == Some(multigraph)
    ensures multigraph.settings == BaseSettings("multigraph", outputDir)
    ensures counts.settings == BaseSettings("update_count", outputDir)
    ensures paths.settings == BaseSettings("path", outputDir)
  {
    multigraph := new ASMultiGraphObserver("multigraph", outputDir);
    graph := new ASGraphObserver("graph", outputDir, multigraph := Some(multigraph));
    counts := new UpdateCountObserver("update_count", outputDir);
    paths := new PathObserver("path", outputDir);
  }

  /** The observers `warm_update_process` attaches, in order: the graph observer (which
      reads its peer counts from the multigraph observer), the multigraph, update-count
      and path observers, all writing to `outputDir`. */
  method AttachObservers(rib: RIBTable, outputDir: string)
    returns (graph: ASGraphObserver, multigraph: ASMultiGraphObserver, counts: UpdateCountObserver,
             paths: PathObserver)
    requires AllValid(rib.observers)
    modifies rib
    ensures fresh(graph) && fresh(multigraph) && fresh(counts) && fresh(paths)
    ensures AllValid(rib.observers)
    ensures rib.observers == old(rib.observers)
                             + [GraphObs(graph), MultiGraphObs(multigraph), CountObs(counts), PathObs(paths)]
    ensures graph.settings == BaseSettings("graph", outputDir) && graph.multigraph == Some(multigraph)
    ensures multigraph.settings == BaseSettings("multigraph", outputDir)
    ensures counts.settings == BaseSettings("update_count", outputDir)
    ensures paths.settings == BaseSettings("path", outputDir)
    ensures rib.data == old(rib.data) && rib.stopUpdating == old(rib.stopUpdating)
  {
    assert forall o | o in rib.observers :: allocated(o.Target());
    ghost var obs0 := rib.observers;
    graph, multigraph, counts, paths := NewObservers(outputDir);
    var a, b, c, d := GraphObs(graph), MultiGraphObs(multigraph), CountObs(counts), PathObs(paths);
    rib.AttachObserver(a);
    ghost var obs1 := rib.observers;
    rib.AttachObserver(b);
    ghost var obs2 := rib.observers;
    rib.AttachObserver(c);
    ghost var obs3 := rib.observers;
    rib.AttachObserver(d);
    Appended4(obs0, obs1, obs2, obs3, rib.observers, a, b, c, d);
  }

  lemma Appended4(obs0: seq<Observer>, obs1: seq<Observer>, obs2: seq<Observer>, obs3: seq<Observer>,
                  obs4: seq<Observer>, a: Observer, b: Observer, c: Observer, d: Observer)
    requires obs1 == obs0 + [a] && obs2 == obs1 + [b] && obs3 == obs2 + [c] && obs4 == obs3 + [d]
    ensures obs4 == obs0 + [a, b, c, d]
  {
  }

  /** Matching own observers against a single graph observer named "graph" fails
      exactly when one of them named "graph" is a multigraph observer. */
  lemma GraphPairsError(own: seq<Observer>, g: Observer)
    requires g.GraphObs? && g.Name() == "graph"
    ensures (FirstPairError(MatchPairs(own, [g])).Some?
             <==> exists o :: o in own && o.MultiGraphObs? && o.Name() == "graph")
  {
    if o :| o in own && o.MultiGraphObs? && o.Name() == "graph" {
      MultiGraphPairFails(own, g, o);
    } else {
      GraphPairsPass(own, g);
    }
  }

  lemma MultiGraphPairFails(own: seq<Observer>, g: Observer, o: Observer)
    requires g.GraphObs? && g.Name() == "graph"
    requires o in own && o.MultiGraphObs? && o.Name() == "graph"
    ensures FirstPairError(MatchPairs(own, [g])).Some?
  {
    var pairs := MatchPairs(own, [g]);
    FirstPairErrorNone(pairs);
    MatchPairsExact(own, [g], o, g);
    var k :| 0 <= k < |pairs| && pairs[k] == (o, g);
    assert PairError(pairs[k].0, pairs[k].1).Some?;
  }

  lemma GraphPairsPass(own: seq<Observer>, g: Observer)
    requires g.GraphObs? && g.Name() == "graph"
    requires forall o | o in own && o.Name() == "graph" :: !o.MultiGraphObs?
    ensures FirstPairError(MatchPairs(own, [g])).None?
  {
    var pairs := MatchPairs(own, [g]);
    assert [g][..0] == [] && [g][0] == g;
    assert MatchPairs(own, []) == [];
    assert pairs == [] + SameName(own, g);
    assert [] + SameName(own, g) == SameName(own, g);
    forall k | 0 <= k < |pairs| ensures PairError(pairs[k].0, pairs[k].1).None? {
      var (a, b) := pairs[k];
      assert b == g && a in own && a.Name() == "graph";
      assert !a.MultiGraphObs?;
    }
    FirstPairErrorNone(pairs);
  }

  /** The ground-truth table: a new table with the same peer filter and window, a single
      graph observer named "graph", built from the end RIB files. */
  method BuildTruth(cfg: Config, endFiles: CollectorFiles) returns (truth: RIBTable, err: Option<PyError>)
    ensures fresh(truth) && truth.cfg == cfg
    ensures |truth.observers| == 1 && truth.observers[0].GraphObs? && truth.observers[0].Name() == "graph"
    ensures fresh(truth.observers[0].Target())
    ensures err == BuildTable(endFiles, cfg.peerIpFilter).err
    ensures err.None? ==> truth.data == BuildTable(endFiles, cfg.peerIpFilter).table
    ensures err.None? ==> truth.observers[0].g.Graphs() == GraphsAfter(BuildTable(endFiles, cfg.peerIpFilter).events)
  {
    truth := new RIBTable(cfg.peerIpFilter, cfg.tsStart, cfg.tsEnd);
    var g := new ASGraphObserver("graph");
    truth.AttachObserver(GraphObs(g));
    ghost var s0 := StatesOf(truth.observers);
    assert s0[GraphObs(g)] == GraphState(PerFamily(EmptyGraph, EmptyGraph));
    err := truth.Build(endFiles);
    assert multiset(truth.observers)[GraphObs(g)] == 1;
    GraphsAfterIsRepeatAll(BuildTable(endFiles, cfg.peerIpFilter).events);
  }

  /** The end of `warm_update_process` when the end is a RIB time: build a ground-truth
      table from the end RIB files with a single graph observer named "graph", then compare
      the reconstructed table against it. A failing build raises; otherwise the result is
      that of `compare`: the per-peer differences between the two tables, and an error
      exactly when one of the reconstructed table's observers named "graph" is a
      multigraph observer. */
  method CheckAgainstGroundTruth(rib: RIBTable, endFiles: CollectorFiles)
    returns (r: Result<(map<string, map<string, Diff<string, Path>>>, seq<Option<Comparison>>)>)
    modifies Targets(rib.observers)
    ensures var b := BuildTable(endFiles, rib.cfg.peerIpFilter);
            b.err.Some? ==> r == Err(b.err.value)
    ensures var b := BuildTable(endFiles, rib.cfg.peerIpFilter);
            b.err.None? && MissingCollector(old(rib.data), b.table) ==> r == Err(KeyError)
    ensures var b := BuildTable(endFiles, rib.cfg.peerIpFilter);
            b.err.None? && !MissingCollector(old(rib.data), b.table) ==>
              && (r.Err? <==> exists o :: o in old(rib.observers) && o.MultiGraphObs? && o.Name() == "graph")
              && (r.Ok? ==> r.value.0 == PeerDiffs(old(rib.data), b.table))
    ensures var b := BuildTable(endFiles, rib.cfg.peerIpFilter);
            var named := NamedGraph(old(rib.observers));
            b.err.None? && !MissingCollector(old(rib.data), b.table) && r.Ok? ==>
              && |r.value.1| == |named|
              && forall k | 0 <= k < |named| ::
                   r.value.1[k] == if named[k].GraphObs?
                                   then Some(CompareWeightedGraphs(PruneIsolates(old(named[k].g.graph4)), GraphsAfter(b.events).v4))
                                   else None
  {
    var truth, e := BuildTruth(rib.cfg, endFiles);
    if e.Some? {
      return Err(e.value);
    }
    assert Targets(rib.observers) !! Targets(truth.observers);
    r := CompareWithTruth(rib, truth, BuildTable(endFiles, rib.cfg.peerIpFilter).events);
  }

  /** `compare` of the reconstructed table `rib` against a ground-truth table whose single
      observer is a graph observer named "graph" holding the IPv4 graph built by `events`:
      the observers of `rib` named "graph" are compared with it in order. */
  method CompareWithTruth(rib: RIBTable, truth: RIBTable, ghost events: seq<Event>)
    returns (r: Result<(map<string, map<string, Diff<string, Path>>>, seq<Option<Comparison>>)>)
    requires |truth.observers| == 1 && truth.observers[0].GraphObs? && truth.observers[0].Name() == "graph"
    requires truth.observers[0].g.graph4 == GraphsAfter(events).v4
    requires Targets(rib.observers) !! Targets(truth.observers)
    modifies truth, Targets(rib.observers)
    ensures MissingCollector(old(rib.data), old(truth.data)) ==> r == Err(KeyError)
    ensures !MissingCollector(old(rib.data), old(truth.data)) ==>
              && (r.Err? <==> exists o :: o in old(rib.observers) && o.MultiGraphObs? && o.Name() == "graph")
              && (r.Ok? ==> r.value.0 == PeerDiffs(old(rib.data), old(truth.data)))
    ensures var named := NamedGraph(old(rib.observers));
            !MissingCollector(old(rib.data), old(truth.data)) && r.Ok? ==>
              && |r.value.1| == |named|
              && forall k | 0 <= k < |named| ::
                   r.value.1[k] == if named[k].GraphObs?
                                   then Some(CompareWeightedGraphs(PruneIsolates(old(named[k].g.graph4)), GraphsAfter(events).v4))
                                   else None
  {
    var t := truth.observers[0];
    GraphPairsError(rib.observers, t);
    MatchTruth(rib.observers, t);
    r := rib.Compare(truth);
  }

  /** The graphs of a fresh graph observer after the hook calls `es`, each received once. */
  function GraphsAfter(es: seq<Event>): PerFamily<WGraph>
    decreases |es|
  {
    if |es| == 0 then PerFamily(EmptyGraph, EmptyGraph)
    else GraphStep(GraphsAfter(es[..|es| - 1]), es[|es| - 1])
  }

  /** An observer attached once receives each hook call of a batch once. */
  lemma {:induction false} GraphsAfterIsRepeatAll(es: seq<Event>)
    ensures RepeatAll(GraphState(PerFamily(EmptyGraph, EmptyGraph)), es, 1) == GraphState(GraphsAfter(es))
    decreases |es|
  {
    if |es| > 0 {
      GraphsAfterIsRepeatAll(es[..|es| - 1]);
    }
  }

  /** The observers of `own` named "graph", in order: those `compare` pairs with the
      ground truth's single observer. */
  function NamedGraph(own: seq<Observer>): (r: seq<Observer>)
    ensures forall k | 0 <= k < |r| :: r[k] in own && r[k].Name() == "graph"
    decreases |own|
  {
    if |own| == 0 then []
    else NamedGraph(own[..|own| - 1]) + (if own[|own| - 1].Name() == "graph" then [own[|own| - 1]] else [])
  }

  /** The pairs `compare` forms against a single observer named "graph". */
  lemma {:induction false} SameNameIsNamedGraph(own: seq<Observer>, t: Observer)
    requires t.Name() == "graph"
    ensures |SameName(own, t)| == |NamedGraph(own)|
    ensures forall k | 0 <= k < |NamedGraph(own)| :: SameName(own, t)[k] == (NamedGraph(own)[k], t)
    decreases |own|
  {
    if |own| > 0 {
      SameNameIsNamedGraph(own[..|own| - 1], t);
    }
  }

  lemma MatchTruth(own: seq<Observer>, t: Observer)
    requires t.Name() == "graph"
    ensures |MatchPairs(own, [t])| == |NamedGraph(own)|
    ensures forall k | 0 <= k < |NamedGraph(own)| :: MatchPairs(own, [t])[k] == (NamedGraph(own)[k], t)
  {
    assert [t][..0] == [] && [t][0] == t;
    assert MatchPairs(own, []) == [];
    assert MatchPairs(own, [t]) == [] + SameName(own, t);
    assert [] + SameName(own, t) == SameName(own, t);
    SameNameIsNamedGraph(own, t);
  }
}
