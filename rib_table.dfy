/** `RIBTable` of rib_table.py: the nested table `route collector -> peer_ip -> prefix ->
    AS path`, the attached observers, and the build, update, dump and compare operations
    that drive them. The per-line and per-record logic is in module `Rib`; this module
    lifts it to every collector and keeps the observers informed. */
module Tables {
  import opened Common
  import opened AsPath
  import opened ObserverApi
  import opened Graph
  import opened Observers
  import opened Rib

  /** route collector -> peer_ip -> prefix -> AS path. */
  type Table = map<string, CollectorRib>

  /** The `rc_to_url` argument of `build` and `update`, with each URL replaced by the
      records its file holds, in dictionary order. */
  type CollectorFiles = seq<(string, seq<seq<string>>)>

  function Collectors(files: CollectorFiles): set<string> {
    set i | 0 <= i < |files| :: files[i].0
  }

  // ---- build over every collector ----

  datatype TableBuild = TableBuild(table: Table, events: seq<Event>, err: Option<PyError>)

  /** The dictionary comprehension of `build` over the first `|files|` collectors: each
      collector's file is built in turn; the first failing line ends the build. */
  function BuildTable(files: CollectorFiles, filter: seq<string>): TableBuild
    decreases |files|
  {
    if |files| == 0 then TableBuild(map[], [], None)
    else
      var prev := BuildTable(files[..|files| - 1], filter);
      if prev.err.Some? then prev
      else
        var (rc, lines) := files[|files| - 1];
        var run := BuildFile(lines, rc, filter);
        TableBuild(prev.table[rc := run.rib], prev.events + run.events, run.err)
  }

  /** A build that does not fail has exactly the collectors of `rc_to_url` as keys, and
      every stored path is valid. */
  lemma {:induction false} BuildTableShape(files: CollectorFiles, filter: seq<string>)
    ensures BuildTable(files, filter).err.None? ==> BuildTable(files, filter).table.Keys == Collectors(files)
    ensures forall rc | rc in BuildTable(files, filter).table :: PathsValid(BuildTable(files, filter).table[rc])
    decreases |files|
  {
    if |files| > 0 {
      var init := files[..|files| - 1];
      BuildTableShape(init, filter);
      BuildPathsValid(files[|files| - 1].1, files[|files| - 1].0, filter);
      assert Collectors(files) == Collectors(init) + {files[|files| - 1].0} by {
        forall rc | rc in Collectors(files) ensures rc in Collectors(init) + {files[|files| - 1].0} {
          var i :| 0 <= i < |files| && files[i].0 == rc;
          if i < |files| - 1 { assert init[i] == files[i]; }
        }
        forall rc | rc in Collectors(init) ensures rc in Collectors(files) {
          var i :| 0 <= i < |init| && init[i].0 == rc;
          assert files[i] == init[i];
        }
      }
    }
  }

  lemma {:induction false} BuildTableFailureSticks(files: CollectorFiles, filter: seq<string>, k: int)
    requires 0 <= k <= |files|
    requires BuildTable(files[..k], filter).err.Some?
    ensures BuildTable(files, filter) == BuildTable(files[..k], filter)
    decreases |files|
  {
    if k < |files| {
      assert files[..|files| - 1][..k] == files[..k];
      BuildTableFailureSticks(files[..|files| - 1], filter, k);
    } else {
      assert files[..k] == files;
    }
  }

  // ---- update over every collector ----

  datatype TableUpdate = TableUpdate(table: Table, stop: map<string, bool>, events: seq<Event>, err: Option<PyError>)

  /** `update` over the first `|files|` collectors: `self.data[rc]` raises KeyError for a
      collector that was never built; otherwise its file is applied to its table in place,
      a stop sets the collector's flag, and an exception ends the update. */
  function UpdateTable(files: CollectorFiles, table0: Table, stop0: map<string, bool>, cfg: Config): TableUpdate
    decreases |files|
  {
    if |files| == 0 then TableUpdate(table0, stop0, [], None)
    else
      var prev := UpdateTable(files[..|files| - 1], table0, stop0, cfg);
      if prev.err.Some? then prev
      else
        var (rc, records) := files[|files| - 1];
        if rc !in prev.table then prev.(err := Some(KeyError))
        else
          Applied(prev, rc, UpdateFile(records, prev.table[rc], rc, cfg))
  }

  /** The collector's table is replaced by the file's result, a stop sets its flag, and a
      crash becomes the update's error. */
  function Applied(prev: TableUpdate, rc: string, run: FileRun): TableUpdate {
    TableUpdate(
      prev.table[rc := run.rib],
      if run.status == FileStopped then prev.stop[rc := true] else prev.stop,
      prev.events + run.events,
      if run.status.FileCrashed? then Some(run.status.error) else None)
  }

  /** Updates keep the set of collectors and, within each, the set of peers; they keep
      every stored path valid; and a stop flag, once set, stays set. */
  lemma {:induction false} UpdateTableShape(files: CollectorFiles, table0: Table, stop0: map<string, bool>, cfg: Config)
    requires forall rc | rc in table0 :: PathsValid(table0[rc])
    ensures ShapeKept(UpdateTable(files, table0, stop0, cfg), table0, stop0)
    decreases |files|
  {
    if |files| == 0 {
      assert UpdateTable(files, table0, stop0, cfg) == TableUpdate(table0, stop0, [], None);
    } else {
      var prev := UpdateTable(files[..|files| - 1], table0, stop0, cfg);
      UpdateTableShape(files[..|files| - 1], table0, stop0, cfg);
      var (rc, records) := files[|files| - 1];
      if prev.err.Some? {
        assert UpdateTable(files, table0, stop0, cfg) == prev;
      } else if rc !in prev.table {
        assert UpdateTable(files, table0, stop0, cfg) == prev.(err := Some(KeyError));
      } else {
        var run := UpdateFile(records, prev.table[rc], rc, cfg);
        assert UpdateTable(files, table0, stop0, cfg) == Applied(prev, rc, run);
        UpdateKeepsShape(records, prev.table[rc], rc, cfg);
        UpdateFileShape(prev, rc, run, table0, stop0);
      }
    }
  }

  /** The shape `UpdateTableShape` promises, of an update from `table0` and `stop0`. */
  ghost predicate ShapeKept(u: TableUpdate, table0: Table, stop0: map<string, bool>) {
    && u.table.Keys == table0.Keys
    && (forall rc | rc in table0 :: u.table[rc].Keys == table0[rc].Keys && PathsValid(u.table[rc]))
    && (forall rc | rc in stop0 && stop0[rc] :: rc in u.stop && u.stop[rc])
    && u.stop.Keys <= stop0.Keys + table0.Keys
  }

  /** Applying one collector's file keeps the shape. */
  lemma UpdateFileShape(prev: TableUpdate, rc: string, run: FileRun, table0: Table, stop0: map<string, bool>)
    requires ShapeKept(prev, table0, stop0) && rc in prev.table
    requires run.rib.Keys == prev.table[rc].Keys && PathsValid(run.rib)
    ensures ShapeKept(Applied(prev, rc, run), table0, stop0)
  {
    var u := Applied(prev, rc, run);
    var t, st := u.table, u.stop;
    assert t == prev.table[rc := run.rib];
    assert t.Keys == table0.Keys;
    forall r | r in table0 ensures t[r].Keys == table0[r].Keys && PathsValid(t[r]) {
      if r != rc {
        assert t[r] == prev.table[r];
      }
    }
    assert st.Keys <= prev.stop.Keys + {rc};
    forall r | r in stop0 && stop0[r] ensures r in st && st[r] {
      assert r in prev.stop && prev.stop[r];
    }
  }

  lemma {:induction false} UpdateTableFailureSticks(files: CollectorFiles, table0: Table, stop0: map<string, bool>,
                                                    cfg: Config, k: int)
    requires 0 <= k <= |files|
    requires UpdateTable(files[..k], table0, stop0, cfg).err.Some?
    ensures UpdateTable(files, table0, stop0, cfg) == UpdateTable(files[..k], table0, stop0, cfg)
    decreases |files|
  {
    if k < |files| {
      assert files[..|files| - 1][..k] == files[..k];
      UpdateTableFailureSticks(files[..|files| - 1], table0, stop0, cfg, k);
    } else {
      assert files[..k] == files;
    }
  }

  // ---- compare ----

  /** Some own collector with at least one peer is missing from the other table: the
      lookup `other.data[rc]` of the plain outer dict raises KeyError. An own collector
      without peers is never looked up. */
  predicate MissingCollector(mine: Table, theirs: Table) {
    exists rc | rc in mine :: rc !in theirs && |mine[rc]| > 0
  }

  /** The other table after `other.data[rc][peer_ip]` has run for every own collector and
      peer: the inner defaultdict gains an empty table for each peer it lacked. */
  function Vivified(mine: Table, theirs: Table): (r: Table)
    ensures r.Keys == theirs.Keys
    ensures forall rc | rc in theirs :: theirs[rc].Keys <= r[rc].Keys
    ensures forall rc, peerIp | rc in theirs && peerIp in theirs[rc] :: r[rc][peerIp] == theirs[rc][peerIp]
    ensures forall rc, peerIp | rc in r && peerIp in r[rc] && peerIp !in theirs[rc] :: rc in mine && peerIp in mine[rc] && r[rc][peerIp] == map[]
  {
    map rc | rc in theirs ::
      if rc in mine then
        map peerIp | peerIp in theirs[rc].Keys + mine[rc].Keys ::
          if peerIp in theirs[rc] then theirs[rc][peerIp] else map[]
      else theirs[rc]
  }

  /** The RIB check of `compare` for one collector: for every own peer whose ground-truth
      table is not empty, the `dict_diff` of the own table against the ground truth. */
  function CollectorDiffs(mine: CollectorRib, theirs: CollectorRib): (r: map<string, Diff<string, Path>>)
    ensures forall peerIp :: peerIp in r <==> peerIp in mine && peerIp in theirs && |theirs[peerIp]| > 0
  {
    map peerIp | peerIp in mine && peerIp in theirs && |theirs[peerIp]| > 0 ::
      DictDiff(mine[peerIp], theirs[peerIp])
  }

  /** The RIB check of `compare` over every own collector. */
  function PeerDiffs(mine: Table, theirs: Table): (r: map<string, map<string, Diff<string, Path>>>)
    ensures r.Keys == mine.Keys
    ensures forall rc | rc in mine && rc !in theirs :: r[rc] == map[]
  {
    map rc | rc in mine :: CollectorDiffs(mine[rc], if rc in theirs then theirs[rc] else map[])
  }

  /** Empty ground-truth tables are skipped, so adding them changes nothing. */
  lemma CollectorDiffsIgnoreEmpty(mine: CollectorRib, theirs: CollectorRib, more: CollectorRib)
    requires theirs.Keys <= more.Keys
    requires forall peerIp | peerIp in theirs :: more[peerIp] == theirs[peerIp]
    requires forall peerIp | peerIp in more && peerIp !in theirs :: more[peerIp] == map[]
    ensures CollectorDiffs(mine, more) == CollectorDiffs(mine, theirs)
  {
    var a, b := CollectorDiffs(mine, more), CollectorDiffs(mine, theirs);
    forall peerIp ensures peerIp in a <==> peerIp in b {
      if peerIp in more && peerIp !in theirs {
        assert more[peerIp] == map[];
      }
    }
    assert a.Keys == b.Keys;
    forall peerIp | peerIp in a ensures a[peerIp] == b[peerIp] {
      assert more[peerIp] == theirs[peerIp];
    }
  }

  /** The empty tables the comparison adds to the ground truth are skipped, so the check
      reads the same before and after them. */
  lemma PeerDiffsIgnoreVivified(mine: Table, theirs: Table)
    ensures PeerDiffs(mine, Vivified(mine, theirs)) == PeerDiffs(mine, theirs)
  {
    var v := Vivified(mine, theirs);
    forall rc | rc in mine && rc in theirs ensures CollectorDiffs(mine[rc], v[rc]) == CollectorDiffs(mine[rc], theirs[rc]) {
      CollectorDiffsIgnoreEmpty(mine[rc], theirs[rc], v[rc]);
    }
  }

  /** A reconstruction that matches the ground truth on every checked peer reports no
      difference for it. */
  lemma PeerDiffsOfEqualTables(mine: Table, theirs: Table, rc: string, peerIp: string)
    requires rc in mine && peerIp in mine[rc] && rc in theirs && peerIp in theirs[rc] && |theirs[rc][peerIp]| > 0
    ensures var d := PeerDiffs(mine, theirs)[rc][peerIp];
            d.added == map[] && d.removed == map[] && d.modified == map[] <==> mine[rc][peerIp] == theirs[rc][peerIp]
  {
    DictDiffEmptyIff(mine[rc][peerIp], theirs[rc][peerIp]);
  }

  /** The error `_notify_dump` raises: that of the first observer whose dump fails. */
  function FirstDumpError(obs: seq<Observer>): (r: Option<PyError>)
    ensures r.None? <==> forall i :: 0 <= i < |obs| ==> DumpError(obs[i]).None?
    ensures r.Some? ==> exists k :: 0 <= k < |obs| && r == DumpError(obs[k])
                                    && forall j :: 0 <= j < k ==> DumpError(obs[j]).None?
    decreases |obs|
  {
    if |obs| == 0 then None
    else if DumpError(obs[0]).Some? then DumpError(obs[0])
    else
      var r := FirstDumpError(obs[1..]);
      assert forall i :: 1 <= i < |obs| ==> obs[i] == obs[1..][i - 1];
      r
  }

  /** The error `observer.compare(other_observer)` raises for one matched pair. */
  function PairError(own: Observer, other: Observer): Option<PyError> {
    if own.MultiGraphObs? then Some(NotImplementedError)
    else if own.GraphObs? && (other.PathObs? || other.CountObs?) then Some(AttributeError)
    else None
  }

  /** The error the observer loop of `compare` raises: that of the first failing pair. */
  function FirstPairError(pairs: seq<(Observer, Observer)>): Option<PyError>
    decreases |pairs|
  {
    if |pairs| == 0 then None
    else if FirstPairError(pairs[..|pairs| - 1]).Some? then FirstPairError(pairs[..|pairs| - 1])
    else PairError(pairs[|pairs| - 1].0, pairs[|pairs| - 1].1)
  }

  /** The loop stops at the first failing pair, whatever follows it. */
  lemma {:induction false} PairFailureSticks(pairs: seq<(Observer, Observer)>, k: int)
    requires 0 <= k <= |pairs|
    requires FirstPairError(pairs[..k]).Some?
    ensures FirstPairError(pairs) == FirstPairError(pairs[..k])
    decreases |pairs|
  {
    if k < |pairs| {
      assert pairs[..|pairs| - 1][..k] == pairs[..k];
      PairFailureSticks(pairs[..|pairs| - 1], k);
    } else {
      assert pairs[..k] == pairs;
    }
  }

  /** A pair is compared without error exactly when no own multigraph observer and no own
      graph observer matched with a path or update-count observer is among them. */
  lemma {:induction false} FirstPairErrorNone(pairs: seq<(Observer, Observer)>)
    ensures FirstPairError(pairs).None? <==> forall k | 0 <= k < |pairs| :: PairError(pairs[k].0, pairs[k].1).None?
    decreases |pairs|
  {
    if |pairs| > 0 {
      FirstPairErrorNone(pairs[..|pairs| - 1]);
      assert forall k | 0 <= k < |pairs| - 1 :: pairs[..|pairs| - 1][k] == pairs[k];
    }
  }

  // ---- observer bookkeeping ----

  /** The objects the hooks of the observers `obs` change. */
  ghost function Targets(obs: seq<Observer>): set<object> {
    set o | o in obs :: o.Target()
  }

  /** The state of every observer of `obs`. */
  ghost function StatesOf(obs: seq<Observer>): map<Observer, State>
    reads Targets(obs)
  {
    map o | o in obs :: StateOf(o)
  }

  ghost predicate AllValid(obs: seq<Observer>)
    reads Targets(obs)
  {
    forall o | o in obs :: ObsValid(o)
  }

  /** The first `i` observers of `obs` have received `e`, each once per attachment among
      them, since the observers were in the states `s0`. */
  ghost predicate Reached(obs: seq<Observer>, s0: map<Observer, State>, e: Event, i: int)
    requires 0 <= i <= |obs|
    reads Targets(obs)
  {
    forall o | o in obs :: o in s0 && StateOf(o) == Repeat(s0[o], e, multiset(obs[..i])[o])
  }

  /** Every observer of `obs` has received the hook calls `es` in order, each once per
      attachment, since the observers were in the states `s0`. */
  ghost predicate Advanced(obs: seq<Observer>, s0: map<Observer, State>, es: seq<Event>)
    reads Targets(obs)
  {
    forall o | o in obs :: o in s0 && StateOf(o) == RepeatAll(s0[o], es, multiset(obs)[o])
  }

  /** After one `_notify_*` loop, each observer has received the call once per attachment. */
  lemma NotifiedEveryone(obs: seq<Observer>, s0: map<Observer, State>, e: Event)
    requires Reached(obs, s0, e, |obs|)
    ensures Advanced(obs, s0, [e])
  {
    assert obs[..|obs|] == obs;
    assert [e][..0] == [];
  }

  /** Before a `_notify_*` loop, no observer has received the hook yet. */
  lemma ReachedStart(obs: seq<Observer>, e: Event)
    ensures Reached(obs, StatesOf(obs), e, 0)
  {
    assert obs[..0] == [];
  }

  lemma EventsAssoc(a: seq<Event>, b: seq<Event>, c: seq<Event>)
    ensures a + b + c == a + (b + c)
  {
  }

  lemma AdvancedStart(obs: seq<Observer>)
    ensures Advanced(obs, StatesOf(obs), [])
  {
  }

  /** Every observer of `obs` went from its state in `s0` to its state in `now` by the
      hook calls `es`, each once per attachment. */
  ghost predicate Stepped(obs: seq<Observer>, s0: map<Observer, State>, now: map<Observer, State>, es: seq<Event>) {
    forall o | o in obs :: o in s0 && o in now && now[o] == RepeatAll(s0[o], es, multiset(obs)[o])
  }

  /** `Advanced` read off the current states, kept as a value that survives later updates. */
  lemma AdvancedStates(obs: seq<Observer>, s0: map<Observer, State>, es: seq<Event>)
    requires Advanced(obs, s0, es)
    ensures Stepped(obs, s0, StatesOf(obs), es)
  {
  }

  /** A state of `obs` reached by `a` from `s0`, followed by `b`, is reached by `a + b`. */
  lemma AdvancedThen(obs: seq<Observer>, s0: map<Observer, State>, mid: map<Observer, State>,
                     a: seq<Event>, b: seq<Event>)
    requires Stepped(obs, s0, mid, a) && Advanced(obs, mid, b)
    ensures Advanced(obs, s0, a + b)
  {
    forall o | o in obs ensures StateOf(o) == RepeatAll(s0[o], a + b, multiset(obs)[o]) {
      RepeatAllAppend(s0[o], a, b, multiset(obs)[o]);
    }
  }

  lemma MultisetStep(s: seq<Observer>, i: int)
    requires 0 <= i < |s|
    ensures forall x :: multiset(s[..i + 1])[x] == multiset(s[..i])[x] + (if s[i] == x then 1 else 0)
  {
    assert s[..i + 1] == s[..i] + [s[i]];
  }

  lemma FanOutStep(obs: seq<Observer>, e: Event, i: int)
    requires 0 <= i < |obs|
    ensures FanOut(obs[..i + 1], e) == FanOut(obs[..i], e) + [(obs[i], e)]
  {
    var a, b := FanOut(obs[..i + 1], e), FanOut(obs[..i], e) + [(obs[i], e)];
    assert |a| == |b|;
    forall k | 0 <= k < |a| ensures a[k] == b[k] {
      if k < i {
        assert a[k] == (obs[k], e);
      }
    }
  }

  lemma FanOutAllOne(obs: seq<Observer>, e: Event)
    ensures FanOutAll(obs, [e]) == FanOut(obs, e)
  {
    assert [e][..0] == [];
  }

  /** The body of a `_notify_*` loop: the `i`-th observer receives the hook and no other
      observer changes. */
  method DeliverNext(obs: seq<Observer>, i: int, e: Event, ghost s0: map<Observer, State>)
    requires 0 <= i < |obs| && !e.Dump? && AllValid(obs) && Reached(obs, s0, e, i)
    modifies obs[i].Target()
    ensures AllValid(obs) && Reached(obs, s0, e, i + 1)
  {
    assert forall x | x in obs :: allocated(x.Target());
    var o := obs[i];
    label L:
    Deliver(o, e);
    MultisetStep(obs, i);
    forall x | x in obs && x != o
      ensures StateOf(x) == old@L(StateOf(x)) && ObsValid(x) == old@L(ObsValid(x))
    {
      TargetInjective(x, o);
    }
  }

  /** The loop of a `_notify_*` method. */
  method NotifyLoop(obs: seq<Observer>, e: Event, ghost s0: map<Observer, State>)
    requires !e.Dump? && AllValid(obs) && Reached(obs, s0, e, 0)
    modifies Targets(obs)
    ensures AllValid(obs) && Reached(obs, s0, e, |obs|)
  {
    assert forall x | x in obs :: allocated(x.Target());
    var i := 0;
    while i < |obs|
      invariant 0 <= i <= |obs|
      invariant AllValid(obs) && Reached(obs, s0, e, i)
    {
      DeliverNext(obs, i, e, s0);
      i := i + 1;
    }
  }

  /** `_notify_dump`: every observer dumps in turn; the first dump that raises ends the
      loop. A dump changes no observer. */
  method DumpLoop(obs: seq<Observer>, ts: int) returns (err: Option<PyError>, ghost reached: int)
    requires AllValid(obs)
    ensures forall o | o in obs :: StateOf(o) == old(StateOf(o))
    ensures err == FirstDumpError(obs)
    ensures err.None? ==> reached == |obs|
    ensures err.Some? ==> 0 <= reached < |obs| && err == DumpError(obs[reached])
                          && forall j :: 0 <= j < reached ==> DumpError(obs[j]).None?
  {
    assert forall o | o in obs :: allocated(o.Target());
    var i := 0;
    while i < |obs|
      invariant 0 <= i <= |obs|
      invariant forall j :: 0 <= j < i ==> DumpError(obs[j]).None?
    {
      assert obs[i] in obs;
      err := DeliverDump(obs[i], ts);
      if err.Some? {
        return err, i;
      }
      i := i + 1;
    }
    return None, i;
  }

  /** The observer loop of `compare`: for every matched pair, in order, the own observer
      compares itself with the other one; the first error ends the loop. */
  method CompareObservers(pairs: seq<(Observer, Observer)>, own: seq<Observer>, others: seq<Observer>)
    returns (r: Result<seq<Option<Comparison>>>)
    requires forall k | 0 <= k < |pairs| :: pairs[k].0 in own && pairs[k].1 in others
    modifies Targets(own)
    ensures r.Err? <==> FirstPairError(pairs).Some?
    ensures r.Err? ==> r.error == FirstPairError(pairs).value
    ensures r.Ok? ==> |r.value| == |pairs|
    ensures r.Ok? ==> forall k | 0 <= k < |pairs| && !(pairs[k].0.GraphObs? && pairs[k].1.GraphObs?) :: r.value[k] == None
    ensures r.Ok? && Targets(own) !! Targets(others) ==>
              forall k | 0 <= k < |pairs| && pairs[k].0.GraphObs? && pairs[k].1.GraphObs? ::
                r.value[k] == Some(CompareWeightedGraphs(PruneIsolates(old(pairs[k].0.g.graph4)), old(pairs[k].1.g.graph4)))
  {
    var results: seq<Option<Comparison>> := [];
    var k := 0;
    while k < |pairs|
      invariant 0 <= k <= |pairs| && |results| == k
      invariant FirstPairError(pairs[..k]).None?
      invariant forall o | o in own && o.GraphObs? :: o.g.graph4 == old(o.g.graph4) || o.g.graph4 == PruneIsolates(old(o.g.graph4))
      invariant Targets(own) !! Targets(others) ==> forall o | o in others && o.GraphObs? :: o.g.graph4 == old(o.g.graph4)
      invariant forall j | 0 <= j < k && !(pairs[j].0.GraphObs? && pairs[j].1.GraphObs?) :: results[j] == None
      invariant Targets(own) !! Targets(others) ==>
                  forall j | 0 <= j < k && pairs[j].0.GraphObs? && pairs[j].1.GraphObs? ::
                    results[j] == Some(CompareWeightedGraphs(PruneIsolates(old(pairs[j].0.g.graph4)), old(pairs[j].1.g.graph4)))
    {
      var (a, b) := pairs[k];
      label B:
      var c := ComparePair(own, others, a, b);
      forall o | o in own && o.GraphObs?
        ensures o.g.graph4 == old(o.g.graph4) || o.g.graph4 == PruneIsolates(old(o.g.graph4))
      {
        PrunedAgain(old(o.g.graph4), old@B(o.g.graph4), o.g.graph4);
      }
      if Targets(own) !! Targets(others) && a.GraphObs? && b.GraphObs? {
        PruneIsolatesIdempotent(old(a.g.graph4));
        assert PruneIsolates(old@B(a.g.graph4)) == PruneIsolates(old(a.g.graph4));
        assert old@B(b.g.graph4) == old(b.g.graph4);
      }
      assert pairs[..k + 1][..k] == pairs[..k];
      if c.Err? {
        PairFailureSticks(pairs, k + 1);
        return Err(c.error);
      }
      results := results + [c.value];
      k := k + 1;
    }
    assert pairs[..k] == pairs;
    r := Ok(results);
  }

  /** A graph pruned zero or one time, then zero or one more time, was pruned zero or one
      time. */
  lemma PrunedAgain(g0: WGraph, g1: WGraph, g2: WGraph)
    requires g1 == g0 || g1 == PruneIsolates(g0)
    requires g2 == g1 || g2 == PruneIsolates(g1)
    ensures g2 == g0 || g2 == PruneIsolates(g0)
  {
    PruneIsolatesIdempotent(g0);
  }

  /** One `own_observer.compare(other_observer)` call of the loop, with what it leaves of
      every graph observer of both tables. */
  method ComparePair(own: seq<Observer>, others: seq<Observer>, a: Observer, b: Observer)
    returns (c: Result<Option<Comparison>>)
    requires a in own && b in others
    modifies a.Target()
    ensures c.Err? <==> PairError(a, b).Some?
    ensures c.Err? ==> c.error == PairError(a, b).value
    ensures c.Ok? && !(a.GraphObs? && b.GraphObs?) ==> c.value == None
    ensures forall o | o in own && o.GraphObs? :: o.g.graph4 == old(o.g.graph4) || o.g.graph4 == PruneIsolates(old(o.g.graph4))
    ensures Targets(own) !! Targets(others) ==> forall o | o in others && o.GraphObs? :: o.g.graph4 == old(o.g.graph4)
    ensures Targets(own) !! Targets(others) && a.GraphObs? && b.GraphObs? ==>
              c == Ok(Some(CompareWeightedGraphs(PruneIsolates(old(a.g.graph4)), old(b.g.graph4))))
  {
    c := CompareWith(a, b);
    if a.GraphObs? {
      PruneIsolatesIdempotent(old(a.g.graph4));
    }
    forall o | o in own && o.GraphObs? && o != a ensures o.g.graph4 == old(o.g.graph4) {
      TargetInjective(o, a);
    }
    if Targets(own) !! Targets(others) {
      forall o | o in others && o.GraphObs? ensures o.g.graph4 == old(o.g.graph4) {
        assert o.Target() in Targets(others);
      }
    }
  }

  /** The table itself is none of its observers. */
  lemma TableIsNoTarget(obs: seq<Observer>, t: RIBTable)
    ensures t !in Targets(obs)
  {
    forall o | o in obs ensures o.Target() != t {
    }
  }

  /** Detaching an observer leaves only valid observers attached. */
  lemma ValidAfterRemove(obs: seq<Observer>, o: Observer)
    requires o in obs && AllValid(obs)
    ensures AllValid(RemoveFirst(obs, o))
  {
    var rest := RemoveFirst(obs, o);
    forall x | x in rest ensures ObsValid(x) {
      assert multiset(rest)[x] > 0;
      assert x in obs;
    }
  }

  class RIBTable {
    /** `_observers`, in attachment order; an observer attached twice is notified twice. */
    var observers: seq<Observer>
    var data: Table
    var stopUpdating: map<string, bool>
    const cfg: Config
    /** Every hook call made so far, in order, with the observer that received it. */
    ghost var log: seq<(Observer, Event)>

    /** `RIBTable(session, peer_ip_filter, ts_start, ts_end)`; the session only serves the
        downloads, which are not part of this model. */
    constructor(peerIpFilter: seq<string>, tsStart: int, tsEnd: int)
      ensures AllValid(observers)
      ensures cfg == Config(peerIpFilter, tsStart, tsEnd)
      ensures observers == [] && data == map[] && stopUpdating == map[] && log == []
    {
      observers := [];
      data := map[];
      stopUpdating := map[];
      cfg := Config(peerIpFilter, tsStart, tsEnd);
      log := [];
    }

    /** `attach_observer`: append, duplicates included. */
    method AttachObserver(o: Observer)
      requires AllValid(observers) && ObsValid(o)
      modifies this
      ensures AllValid(observers)
      ensures observers == old(observers) + [o]
      ensures data == old(data) && stopUpdating == old(stopUpdating) && log == old(log)
    {
      observers := observers + [o];
    }

    /** `detach_observer`: `list.remove` drops the first occurrence, or raises ValueError
        when the observer is not attached. */
    method DetachObserver(o: Observer) returns (err: Option<PyError>)
      requires AllValid(observers)
      modifies this
      ensures AllValid(observers)
      ensures o in old(observers) ==> err.None? && observers == RemoveFirst(old(observers), o)
      ensures o !in old(observers) ==> err == Some(ValueError) && observers == old(observers)
      ensures data == old(data) && stopUpdating == old(stopUpdating) && log == old(log)
    {
      if o !in observers {
        return Some(ValueError);
      }
      var rest := RemoveFirst(observers, o);
      ValidAfterRemove(observers, o);
      TableIsNoTarget(rest, this);
      observers := rest;
      err := None;
    }

    /** One `_notify_*` call: every attached observer receives the hook, in order. */
    method Notify(e: Event)
      requires !e.Dump? && AllValid(observers)
      modifies this, Targets(observers)
      ensures AllValid(observers)
      ensures observers == old(observers) && data == old(data) && stopUpdating == old(stopUpdating)
      ensures log == old(log) + FanOutAll(observers, [e])
      ensures Advanced(observers, old(StatesOf(observers)), [e])
    {
      ghost var s0 := StatesOf(observers);
      TableIsNoTarget(observers, this);
      ReachedStart(observers, e);
      NotifyLoop(observers, e, s0);
      NotifiedEveryone(observers, s0, e);
      FanOutAllOne(observers, e);
      log := log + FanOut(observers, e);
    }

    /** Several `_notify_*` calls, one after the other. */
    method NotifyAll(es: seq<Event>)
      requires forall k | 0 <= k < |es| :: !es[k].Dump?
      requires AllValid(observers)
      modifies this, Targets(observers)
      ensures AllValid(observers)
      ensures observers == old(observers) && data == old(data) && stopUpdating == old(stopUpdating)
      ensures log == old(log) + FanOutAll(observers, es)
      ensures Advanced(observers, old(StatesOf(observers)), es)
    {
      ghost var s0 := StatesOf(observers);
      var k := 0;
      while k < |es|
        invariant 0 <= k <= |es|
        invariant AllValid(observers)
        invariant observers == old(observers) && data == old(data) && stopUpdating == old(stopUpdating)
        invariant log == old(log) + FanOutAll(observers, es[..k])
        invariant Advanced(observers, s0, es[..k])
      {
        NotifyNext(es, k, s0, old(log));
        k := k + 1;
      }
      assert es[..k] == es;
    }

    /** One round of `NotifyAll`. */
    method NotifyNext(es: seq<Event>, k: int, ghost s0: map<Observer, State>, ghost log0: seq<(Observer, Event)>)
      requires 0 <= k < |es| && !es[k].Dump? && AllValid(observers)
      requires Advanced(observers, s0, es[..k]) && log == log0 + FanOutAll(observers, es[..k])
      modifies this, Targets(observers)
      ensures AllValid(observers) && Advanced(observers, s0, es[..k + 1])
      ensures observers == old(observers) && data == old(data) && stopUpdating == old(stopUpdating)
      ensures log == log0 + FanOutAll(observers, es[..k + 1])
    {
      ghost var mid := StatesOf(observers);
      AdvancedStates(observers, s0, es[..k]);
      assert es[..k + 1] == es[..k] + [es[k]];
      LogThen(log0, observers, es[..k], [es[k]]);
      Notify(es[k]);
      AdvancedThen(observers, s0, mid, es[..k], [es[k]]);
    }

    /** Hook calls `es` made after the calls `prev`, all since the states `s0` and the
        log `log0`. */
    method NotifyMore(es: seq<Event>, ghost s0: map<Observer, State>, ghost prev: seq<Event>,
                      ghost log0: seq<(Observer, Event)>)
      requires forall k | 0 <= k < |es| :: !es[k].Dump?
      requires AllValid(observers) && Advanced(observers, s0, prev) && log == log0 + FanOutAll(observers, prev)
      modifies this, Targets(observers)
      ensures AllValid(observers) && Advanced(observers, s0, prev + es)
      ensures log == log0 + FanOutAll(observers, prev + es)
      ensures observers == old(observers) && data == old(data) && stopUpdating == old(stopUpdating)
    {
      ghost var mid := StatesOf(observers);
      AdvancedStates(observers, s0, prev);
      LogThen(log0, observers, prev, es);
      NotifyAll(es);
      AdvancedThen(observers, s0, mid, prev, es);
    }

    /** One line of `_build_rib_from_url`: parsed, then stored and reported or skipped. */
    method StoreLine(line: seq<string>, rc: string, rib: CollectorRib, ghost evs: seq<Event>,
                     ghost s0: map<Observer, State>, ghost prev: seq<Event>, ghost log0: seq<(Observer, Event)>)
      returns (rib': CollectorRib, ghost evs': seq<Event>, err: Option<PyError>)
      requires AllValid(observers) && Advanced(observers, s0, prev + evs)
      requires log == log0 + FanOutAll(observers, prev + evs)
      modifies this, Targets(observers)
      ensures AllValid(observers)
      ensures observers == old(observers) && data == old(data) && stopUpdating == old(stopUpdating)
      ensures BuildRun(rib', evs', err) == LineEffect(BuildRun(rib, evs, None), line, rc, cfg.peerIpFilter)
      ensures log == log0 + FanOutAll(observers, prev + evs') && Advanced(observers, s0, prev + evs')
    {
      rib', evs', err := rib, evs, None;
      match BuildLine(line, cfg.peerIpFilter) {
        case Err(e) =>
          err := Some(e);
        case Ok(None) =>
        case Ok(Some(en)) =>
          rib' := Store(rib, en);
          var es := AddPathEvents(rc, en.peerIp, en.pfx, en.path);
          NotifyMore(es, s0, prev + evs, log0);
          assert prev + evs + es == prev + (evs + es);
          evs' := evs + es;
      }
    }

    /** `_build_rib_from_url` from the lines `bgpdump -m` prints for one RIB file: every
        stored line is written to the table, then reported with `add_path_*`. */
    method BuildRib(lines: seq<seq<string>>, rc: string, ghost s0: map<Observer, State>, ghost prev: seq<Event>,
                    ghost log0: seq<(Observer, Event)>)
      returns (rib: CollectorRib, err: Option<PyError>)
      requires AllValid(observers) && Advanced(observers, s0, prev) && log == log0 + FanOutAll(observers, prev)
      modifies this, Targets(observers)
      ensures AllValid(observers)
      ensures observers == old(observers) && data == old(data) && stopUpdating == old(stopUpdating)
      ensures var run := BuildFile(lines, rc, cfg.peerIpFilter);
              && rib == run.rib && err == run.err
              && log == log0 + FanOutAll(observers, prev + run.events)
              && Advanced(observers, s0, prev + run.events)
    {
      rib := map[];
      ghost var evs: seq<Event> := [];
      assert prev + [] == prev;
      var i := 0;
      while i < |lines|
        invariant 0 <= i <= |lines|
        invariant AllValid(observers)
        invariant observers == old(observers) && data == old(data) && stopUpdating == old(stopUpdating)
        invariant BuildFile(lines[..i], rc, cfg.peerIpFilter) == BuildRun(rib, evs, None)
        invariant log == log0 + FanOutAll(observers, prev + evs)
        invariant Advanced(observers, s0, prev + evs)
      {
        BuildFileStep(lines, rc, cfg.peerIpFilter, i);
        var e: Option<PyError>;
        rib, evs, e := StoreLine(lines[i], rc, rib, evs, s0, prev, log0);
        if e.Some? {
          BuildFailureSticks(lines, rc, cfg.peerIpFilter, i + 1);
          return rib, e;
        }
        i := i + 1;
      }
      assert lines[..i] == lines;
      err := None;
    }

    /** One collector of `build`: its file is built and reported, and joins the tables
        built so far. */
    method BuildNext(files: CollectorFiles, k: int, table: Table, ghost s0: map<Observer, State>,
                     ghost evs: seq<Event>, ghost log0: seq<(Observer, Event)>)
      returns (table': Table, ghost evs': seq<Event>, err: Option<PyError>)
      requires 0 <= k < |files| && BuildTable(files[..k], cfg.peerIpFilter) == TableBuild(table, evs, None)
      requires AllValid(observers) && Advanced(observers, s0, evs) && log == log0 + FanOutAll(observers, evs)
      modifies this, Targets(observers)
      ensures AllValid(observers)
      ensures observers == old(observers) && data == old(data) && stopUpdating == old(stopUpdating)
      ensures BuildTable(files[..k + 1], cfg.peerIpFilter) == TableBuild(table', evs', err)
      ensures log == log0 + FanOutAll(observers, evs') && Advanced(observers, s0, evs')
    {
      var (rc, lines) := files[k];
      assert files[..k + 1][..k] == files[..k];
      var rib;
      rib, err := BuildRib(lines, rc, s0, evs, log0);
      evs' := evs + BuildFile(lines, rc, cfg.peerIpFilter).events;
      table' := table[rc := rib];
    }

    /** `build`: one table per collector of `rc_to_url`, every stop flag cleared. A failing
        line aborts the build before `data` is assigned, though the observers keep the
        calls already made. */
    method Build(files: CollectorFiles) returns (err: Option<PyError>)
      requires AllValid(observers)
      modifies this, Targets(observers)
      ensures AllValid(observers) && observers == old(observers)
      ensures var b := BuildTable(files, cfg.peerIpFilter);
              && err == b.err
              && log == old(log) + FanOutAll(observers, b.events)
              && Advanced(observers, old(StatesOf(observers)), b.events)
              && (err.None? ==> data == b.table && stopUpdating == map rc | rc in Collectors(files) :: false)
              && (err.Some? ==> data == old(data) && stopUpdating == old(stopUpdating))
    {
      ghost var s0 := StatesOf(observers);
      AdvancedStart(observers);
      var table: Table := map[];
      ghost var evs: seq<Event> := [];
      var k := 0;
      while k < |files|
        invariant 0 <= k <= |files|
        invariant AllValid(observers)
        invariant observers == old(observers) && data == old(data) && stopUpdating == old(stopUpdating)
        invariant BuildTable(files[..k], cfg.peerIpFilter) == TableBuild(table, evs, None)
        invariant log == old(log) + FanOutAll(observers, evs)
        invariant Advanced(observers, s0, evs)
      {
        var e;
        table, evs, e := BuildNext(files, k, table, s0, evs, old(log));
        if e.Some? {
          BuildTableFailureSticks(files, cfg.peerIpFilter, k + 1);
          return e;
        }
        k := k + 1;
      }
      assert files[..k] == files;
      TableIsNoTarget(observers, this);
      data := table;
      stopUpdating := map rc | rc in Collectors(files) :: false;
      err := None;
    }

    /** `_withdraw_path_ipv*` / `_withdraw_path`: report the stored path, then remove the
        entry; an absent peer or prefix changes nothing. */
    method WithdrawIn(rc: string, peerIp: string, pfx: string, ghost s0: map<Observer, State>,
                      ghost prev: seq<Event>, ghost log0: seq<(Observer, Event)>)
      requires rc in data && AllValid(observers)
      requires Advanced(observers, s0, prev) && log == log0 + FanOutAll(observers, prev)
      modifies this, Targets(observers)
      ensures AllValid(observers) && observers == old(observers) && stopUpdating == old(stopUpdating)
      ensures var out := WithdrawEntry(old(data)[rc], rc, peerIp, pfx);
              && out.Continue?
              && data == old(data)[rc := out.rib]
              && log == log0 + FanOutAll(observers, prev + out.events)
              && Advanced(observers, s0, prev + out.events)
    {
      var rib := data[rc];
      if peerIp in rib && pfx in rib[peerIp] {
        NotifyMore(WithdrawEvents(rc, peerIp, pfx, rib[peerIp][pfx]), s0, prev, log0);
        TableIsNoTarget(observers, this);
        data := data[rc := rib[peerIp := rib[peerIp] - {pfx}]];
      } else {
        assert prev + [] == prev;
        assert data == data[rc := rib];
      }
    }

    /** `_announce_path`: an unknown peer is ignored; a path that does not parse or is not
        valid withdraws the entry; a valid one is reported with the path it replaces and
        then stored. */
    method AnnounceIn(rc: string, peerIp: string, pfx: string, asPath: string, peerAsn: int,
                      ghost s0: map<Observer, State>, ghost prev: seq<Event>, ghost log0: seq<(Observer, Event)>)
      requires rc in data && AllValid(observers)
      requires Advanced(observers, s0, prev) && log == log0 + FanOutAll(observers, prev)
      modifies this, Targets(observers)
      ensures AllValid(observers) && observers == old(observers) && stopUpdating == old(stopUpdating)
      ensures var out := AnnounceEntry(old(data)[rc], rc, peerIp, pfx, asPath, peerAsn);
              && out.Continue?
              && data == old(data)[rc := out.rib]
              && log == log0 + FanOutAll(observers, prev + out.events)
              && Advanced(observers, s0, prev + out.events)
    {
      var rib := data[rc];
      if peerIp !in rib {
        assert prev + [] == prev;
        assert data == data[rc := rib];
        return;
      }
      var parsed := ParsePath(asPath);
      if parsed.None? {
        assert AnnounceEntry(rib, rc, peerIp, pfx, asPath, peerAsn) == WithdrawEntry(rib, rc, peerIp, pfx);
        WithdrawIn(rc, peerIp, pfx, s0, prev, log0);
      } else if IsValidPath(parsed.value, peerAsn) {
        StorePath(rc, peerIp, pfx, parsed.value, s0, prev, log0);
      } else {
        assert AnnounceEntry(rib, rc, peerIp, pfx, asPath, peerAsn) == WithdrawEntry(rib, rc, peerIp, pfx);
        WithdrawIn(rc, peerIp, pfx, s0, prev, log0);
      }
    }

    /** The valid-path branch of `_announce_path`: the observers hear of the path and the
        one it replaces, then the path is stored. */
    method StorePath(rc: string, peerIp: string, pfx: string, path: seq<int>, ghost s0: map<Observer, State>,
                     ghost prev: seq<Event>, ghost log0: seq<(Observer, Event)>)
      requires rc in data && peerIp in data[rc] && AllValid(observers)
      requires Advanced(observers, s0, prev) && log == log0 + FanOutAll(observers, prev)
      modifies this, Targets(observers)
      ensures AllValid(observers) && observers == old(observers) && stopUpdating == old(stopUpdating)
      ensures var rib := old(data)[rc];
              var es := AnnounceEvents(rc, peerIp, pfx, path, if pfx in rib[peerIp] then Some(rib[peerIp][pfx]) else None);
              && data == old(data)[rc := rib[peerIp := rib[peerIp][pfx := path]]]
              && log == log0 + FanOutAll(observers, prev + es)
              && Advanced(observers, s0, prev + es)
    {
      var rib := data[rc];
      var oldPath := if pfx in rib[peerIp] then Some(rib[peerIp][pfx]) else None;
      NotifyMore(AnnounceEvents(rc, peerIp, pfx, path, oldPath), s0, prev, log0);
      TableIsNoTarget(observers, this);
      data := data[rc := rib[peerIp := rib[peerIp][pfx := path]]];
    }

    /** The body of `update_rib_from_url`'s loop for one record, in the order its checks
        are made; `stop` is the `break` past `ts_end`, `crash` an exception. */
    method ApplyRecord(rc: string, fields: seq<string>, ghost s0: map<Observer, State>,
                       ghost prev: seq<Event>, ghost log0: seq<(Observer, Event)>)
      returns (stop: bool, crash: Option<PyError>)
      requires rc in data && AllValid(observers)
      requires Advanced(observers, s0, prev) && log == log0 + FanOutAll(observers, prev)
      modifies this, Targets(observers)
      ensures AllValid(observers) && observers == old(observers) && stopUpdating == old(stopUpdating)
      ensures var out := UpdateRecord(fields, old(data)[rc], rc, cfg);
              && stop == out.Stopped?
              && crash == (if out.Crashed? then Some(out.error) else None)
              && (out.Continue? ==>
                    && data == old(data)[rc := out.rib]
                    && log == log0 + FanOutAll(observers, prev + out.events)
                    && Advanced(observers, s0, prev + out.events))
              && (!out.Continue? ==>
                    && data == old(data)
                    && log == log0 + FanOutAll(observers, prev)
                    && Advanced(observers, s0, prev))
    {
      assert prev + [] == prev;
      assert data == data[rc := data[rc]];
      if |fields| < 2 {
        return false, Some(IndexError);
      }
      var t := ParseMicros(fields[1]);
      if t.None? {
        return false, Some(ValueError);
      }
      if t.value < cfg.tsStart * MicrosPerSecond {
        return false, None;
      }
      if t.value > (cfg.tsEnd + 1) * MicrosPerSecond {
        return true, None;
      }
      if |fields| < 6 {
        return false, Some(IndexError);
      }
      var updateType, peerIp, pfx := fields[2], fields[3], fields[5];
      if !PassesFilter(cfg.peerIpFilter, peerIp) {
        return false, None;
      }
      if |fields| == 6 && updateType == "W" {
        WithdrawIn(rc, peerIp, pfx, s0, prev, log0);
      } else if |fields| == 15 && updateType == "A" {
        var asn := ParseInt(fields[4]);
        if asn.None? {
          return false, Some(ValueError);
        }
        AnnounceIn(rc, peerIp, pfx, fields[6], asn.value, s0, prev, log0);
      }
      return false, None;
    }

    /** `self.stop_updating[rc] = True`; the observers do not see it. */
    method MarkStopped(rc: string, ghost s0: map<Observer, State>, ghost es: seq<Event>,
                       ghost log0: seq<(Observer, Event)>)
      requires AllValid(observers) && Advanced(observers, s0, es) && log == log0 + FanOutAll(observers, es)
      modifies this
      ensures AllValid(observers) && Advanced(observers, s0, es) && log == log0 + FanOutAll(observers, es)
      ensures observers == old(observers) && data == old(data)
      ensures stopUpdating == old(stopUpdating)[rc := true]
    {
      TableIsNoTarget(observers, this);
      stopUpdating := stopUpdating[rc := true];
    }

    /** One record of `update_rib_from_url`, applied after the records `records[..i]` ran
        from the table `rib0` with the hook calls `evs`. */
    method UpdateRibNext(rc: string, records: seq<seq<string>>, i: int, ghost rib0: CollectorRib,
                         ghost s0: map<Observer, State>, ghost prev: seq<Event>, ghost evs: seq<Event>,
                         ghost log0: seq<(Observer, Event)>)
      returns (status: FileStatus, ghost evs': seq<Event>)
      requires 0 <= i < |records| && rc in data && AllValid(observers)
      requires UpdateFile(records[..i], rib0, rc, cfg) == FileRun(data[rc], evs, Finished)
      requires Advanced(observers, s0, prev + evs) && log == log0 + FanOutAll(observers, prev + evs)
      modifies this, Targets(observers)
      ensures AllValid(observers) && observers == old(observers) && stopUpdating == old(stopUpdating)
      ensures rc in data && data == old(data)[rc := data[rc]]
      ensures UpdateFile(records[..i + 1], rib0, rc, cfg) == FileRun(data[rc], evs', status)
      ensures Advanced(observers, s0, prev + evs') && log == log0 + FanOutAll(observers, prev + evs')
    {
      assert records[..i + 1][..i] == records[..i];
      ghost var out := UpdateRecord(records[i], data[rc], rc, cfg);
      var stop, crash := ApplyRecord(rc, records[i], s0, prev + evs, log0);
      status := if crash.Some? then FileCrashed(crash.value) else if stop then FileStopped else Finished;
      evs' := if out.Continue? then evs + out.events else evs;
      if out.Continue? {
        EventsAssoc(prev, evs, out.events);
      }
    }

    /** `update_rib_from_url` for collector `rc`: its records are applied in turn until one
        lies past `ts_end` (which sets the collector's stop flag) or raises. */
    method UpdateRib(rc: string, records: seq<seq<string>>, ghost s0: map<Observer, State>,
                     ghost prev: seq<Event>, ghost log0: seq<(Observer, Event)>)
      returns (err: Option<PyError>)
      requires rc in data && AllValid(observers)
      requires Advanced(observers, s0, prev) && log == log0 + FanOutAll(observers, prev)
      modifies this, Targets(observers)
      ensures AllValid(observers) && observers == old(observers)
      ensures var run := UpdateFile(records, old(data)[rc], rc, cfg);
              && data == old(data)[rc := run.rib]
              && stopUpdating == (if run.status == FileStopped then old(stopUpdating)[rc := true] else old(stopUpdating))
              && err == (if run.status.FileCrashed? then Some(run.status.error) else None)
              && log == log0 + FanOutAll(observers, prev + run.events)
              && Advanced(observers, s0, prev + run.events)
    {
      ghost var evs: seq<Event> := [];
      assert prev + [] == prev;
      assert data == old(data)[rc := data[rc]];
      var status := Finished;
      var i := 0;
      while i < |records| && status.Finished?
        invariant 0 <= i <= |records|
        invariant AllValid(observers) && observers == old(observers) && stopUpdating == old(stopUpdating)
        invariant rc in data && data == old(data)[rc := data[rc]]
        invariant UpdateFile(records[..i], old(data)[rc], rc, cfg) == FileRun(data[rc], evs, status)
        invariant log == log0 + FanOutAll(observers, prev + evs)
        invariant Advanced(observers, s0, prev + evs)
      {
        status, evs := UpdateRibNext(rc, records, i, old(data)[rc], s0, prev, evs, log0);
        i := i + 1;
      }
      if status.Finished? {
        assert records[..i] == records;
      } else {
        UpdateAbandonsRest(records, old(data)[rc], rc, cfg, i);
      }
      if status == FileStopped {
        MarkStopped(rc, s0, prev + evs, log0);
      }
      err := if status.FileCrashed? then Some(status.error) else None;
    }

    /** `update`: each collector's update file is applied to its table in turn; a
        collector that was never built raises KeyError, and an exception ends the update
        with the tables as far as they got. */
    method Update(files: CollectorFiles) returns (err: Option<PyError>)
      requires AllValid(observers)
      modifies this, Targets(observers)
      ensures AllValid(observers) && observers == old(observers)
      ensures var u := UpdateTable(files, old(data), old(stopUpdating), cfg);
              && data == u.table && stopUpdating == u.stop && err == u.err
              && log == old(log) + FanOutAll(observers, u.events)
              && Advanced(observers, old(StatesOf(observers)), u.events)
    {
      ghost var s0 := StatesOf(observers);
      AdvancedStart(observers);
      ghost var evs: seq<Event> := [];
      var k := 0;
      while k < |files|
        invariant 0 <= k <= |files|
        invariant AllValid(observers) && observers == old(observers)
        invariant UpdateTable(files[..k], old(data), old(stopUpdating), cfg) == TableUpdate(data, stopUpdating, evs, None)
        invariant log == old(log) + FanOutAll(observers, evs)
        invariant Advanced(observers, s0, evs)
      {
        var (rc, records) := files[k];
        assert files[..k + 1][..k] == files[..k];
        if rc !in data {
          UpdateTableFailureSticks(files, old(data), old(stopUpdating), cfg, k + 1);
          return Some(KeyError);
        }
        ghost var run := UpdateFile(records, data[rc], rc, cfg);
        err := UpdateRib(rc, records, s0, evs, old(log));
        evs := evs + run.events;
        if err.Some? {
          UpdateTableFailureSticks(files, old(data), old(stopUpdating), cfg, k + 1);
          return;
        }
        k := k + 1;
      }
      assert files[..k] == files;
      err := None;
    }

    /** `dump`: every observer dumps its state for time `ts`, in attachment order, until
        one raises. Dumping changes no observer's state. */
    method NotifyDump(ts: int) returns (err: Option<PyError>)
      requires AllValid(observers)
      modifies this
      ensures AllValid(observers) && StatesOf(observers) == old(StatesOf(observers))
      ensures observers == old(observers) && data == old(data) && stopUpdating == old(stopUpdating)
      ensures err == FirstDumpError(observers)
      ensures log == old(log) + FanOut(observers[..DumpReach(observers)], Dump(ts))
    {
      TableIsNoTarget(observers, this);
      log := log + FanOut(observers[..DumpReach(observers)], Dump(ts));
      assert StatesOf(observers) == old(StatesOf(observers));
      assert AllValid(observers);
      ghost var reached;
      err, reached := DumpLoop(observers, ts);
    }

    /** `compare` against the ground-truth table `other`: for each collector and own peer
        whose ground-truth table is not empty, the `dict_diff` of the two tables; then
        `compare` on every pair of same-named observers, other-major. Looking up an own
        peer in `other.data` leaves an empty table behind there. An own collector with a
        peer that the other table lacks raises KeyError; the collectors visited before it
        have been vivified by then, and as the visiting order is not modelled, each
        collector of `other.data` is left either as it was or vivified. */
    method Compare(other: RIBTable)
      returns (r: Result<(map<string, map<string, Diff<string, Path>>>, seq<Option<Comparison>>)>)
      modifies other, Targets(observers)
      ensures observers == old(observers) && other.observers == old(other.observers)
      ensures MissingCollector(old(data), old(other.data)) ==>
                && r == Err(KeyError)
                && unchanged(Targets(observers))
                && other.data.Keys == old(other.data).Keys
                && forall rc | rc in other.data ::
                     other.data[rc] == old(other.data)[rc] || other.data[rc] == Vivified(old(data), old(other.data))[rc]
      ensures !MissingCollector(old(data), old(other.data)) ==>
                var pairs := MatchPairs(old(observers), old(other.observers));
                && other.data == Vivified(old(data), old(other.data))
                && (r.Err? <==> FirstPairError(pairs).Some?)
                && (r.Err? ==> r.error == FirstPairError(pairs).value)
                && (r.Ok? ==> r.value.0 == PeerDiffs(old(data), old(other.data)) && |r.value.1| == |pairs|)
                && (r.Ok? ==> forall k | 0 <= k < |pairs| && !(pairs[k].0.GraphObs? && pairs[k].1.GraphObs?) ::
                                r.value.1[k] == None)
                && (r.Ok? && Targets(old(observers)) !! Targets(old(other.observers)) ==>
                      forall k | 0 <= k < |pairs| && pairs[k].0.GraphObs? && pairs[k].1.GraphObs? ::
                        r.value.1[k] == Some(CompareWeightedGraphs(PruneIsolates(old(pairs[k].0.g.graph4)),
                                                                   old(pairs[k].1.g.graph4))))
    {
      var mine, theirs := data, other.data;
      if MissingCollector(mine, theirs) {
        return Err(KeyError);
      }
      var own, others := observers, other.observers;
      TableIsNoTarget(own, other);
      other.data := Vivified(mine, theirs);
      PeerDiffsIgnoreVivified(mine, theirs);
      var diffs := PeerDiffs(mine, other.data);
      var pairs := MatchPairs(own, others);
      var results := CompareObservers(pairs, own, others);
      match results {
        case Err(e) => r := Err(e);
        case Ok(cs) => r := Ok((diffs, cs));
      }
    }
  }
}
