/** The observer interface of observers/observer.py as seen by the RIB table: an attached
    observer is one of the four concrete observer classes, and every hook call is routed to
    the class's own method. The abstract state of an observer is a `State`, and `Step` is the
    effect of one hook call on it. */
module Observers {
  import opened Common
  import opened AsPath
  import opened Counts
  import opened ObserverApi
  import opened Graph
  import opened PathCount
  import opened UpdateCount

  /** An attached observer. The base class's hooks all raise NotImplementedError, so only
      subclasses that supply them can be attached. */
  datatype Observer =
    | GraphObs(g: ASGraphObserver)
    | MultiGraphObs(m: ASMultiGraphObserver)
    | PathObs(p: PathObserver)
    | CountObs(c: UpdateCountObserver)
  {
    /** The object the hooks change. */
    function Target(): object {
      match this
      case GraphObs(g) => g
      case MultiGraphObs(m) => m
      case PathObs(p) => p
      case CountObs(c) => c
    }

    /** `observer.name`, fixed by the constructor. */
    function Name(): string {
      match this
      case GraphObs(g) => g.settings.name
      case MultiGraphObs(m) => m.settings.name
      case PathObs(p) => p.settings.name
      case CountObs(c) => c.settings.name
    }
  }

  /** Two observers with the same object behind them are the same observer. */
  lemma TargetInjective(a: Observer, b: Observer)
    ensures a.Target() == b.Target() <==> a == b
  {
  }

  /** What the hooks of each kind of observer accumulate. */
  datatype State =
    | GraphState(graphs: PerFamily<WGraph>)
    | MultiGraphState(multigraphs: PerFamily<map<KeyedEdge, int>>)
    | PathState(pathsCount: map<Path, int>)
    | CountState(counts: UpdateCounts)

  function StateOf(o: Observer): State
    reads o.Target()
  {
    match o
    case GraphObs(g) => GraphState(g.Graphs())
    case MultiGraphObs(m) => MultiGraphState(m.Graphs())
    case PathObs(p) => PathState(p.pathsCount)
    case CountObs(c) => CountState(c.Counters())
  }

  /** The invariant each kind of observer keeps. */
  ghost predicate StateValid(s: State) {
    match s
    case GraphState(gs) => GraphsWellFormed(gs)
    case MultiGraphState(ms) => MultiWellFormed(ms)
    case PathState(pc) => Positive(pc)
    case CountState(c) => Consistent(c)
  }

  ghost predicate ObsValid(o: Observer)
    reads o.Target()
  {
    StateValid(StateOf(o))
  }

  /** The effect of one hook call on an observer of any kind. */
  function Step(s: State, e: Event): State {
    match s
    case GraphState(gs) => GraphState(GraphStep(gs, e))
    case MultiGraphState(ms) => MultiGraphState(MultiGraphStep(ms, e))
    case PathState(pc) => PathState(PathStep(pc, e))
    case CountState(c) => CountState(CountStep(c, e))
  }

  /** The same hook call received `n` times in a row (an observer attached `n` times). */
  function Repeat(s: State, e: Event, n: nat): State
    decreases n
  {
    if n == 0 then s else Step(Repeat(s, e, n - 1), e)
  }

  /** Every hook call keeps every observer's invariant. */
  lemma StepValid(s: State, e: Event)
    ensures StateValid(s) ==> StateValid(Step(s, e))
  {
    if !StateValid(s) {
      return;
    }
    match s
    case GraphState(gs) => GraphStepWellFormed(gs, e);
    case MultiGraphState(ms) => MultiGraphStepWellFormed(ms, e);
    case PathState(pc) => PathStepPositive(pc, e);
    case CountState(c) => CountStepConsistent(c, e);
  }

  lemma {:induction false} RepeatValid(s: State, e: Event, n: nat)
    requires StateValid(s)
    ensures StateValid(Repeat(s, e, n))
    decreases n
  {
    if n > 0 {
      RepeatValid(s, e, n - 1);
      StepValid(Repeat(s, e, n - 1), e);
    }
  }

  /** A hook call never changes what kind of observer the state belongs to. */
  lemma {:induction false} RepeatKeepsKind(s: State, e: Event, n: nat)
    ensures Repeat(s, e, n).GraphState? == s.GraphState?
    ensures Repeat(s, e, n).MultiGraphState? == s.MultiGraphState?
    ensures Repeat(s, e, n).PathState? == s.PathState?
    ensures Repeat(s, e, n).CountState? == s.CountState?
    decreases n
  {
    if n > 0 {
      var t := Repeat(s, e, n - 1);
      RepeatKeepsKind(s, e, n - 1);
      assert Repeat(s, e, n) == Step(t, e);
      StepKeepsKind(t, e);
    }
  }

  lemma StepKeepsKind(s: State, e: Event)
    ensures Step(s, e).GraphState? == s.GraphState?
    ensures Step(s, e).MultiGraphState? == s.MultiGraphState?
    ensures Step(s, e).PathState? == s.PathState?
    ensures Step(s, e).CountState? == s.CountState?
  {
    match s
    case GraphState(_) =>
    case MultiGraphState(_) =>
    case PathState(_) =>
    case CountState(_) =>
  }

  /** A dump notification leaves every observer's state as it was. */
  lemma {:induction false} RepeatDump(s: State, ts: int, n: nat)
    ensures Repeat(s, Dump(ts), n) == s
    decreases n
  {
    if n > 0 {
      RepeatDump(s, ts, n - 1);
    }
  }

  /** The (observer, event) pairs one `_notify_*` loop produces: each attached observer in
      attachment order, an observer attached twice being called twice. */
  function FanOut(obs: seq<Observer>, e: Event): (r: seq<(Observer, Event)>)
    ensures |r| == |obs|
    ensures forall i :: 0 <= i < |obs| ==> r[i] == (obs[i], e)
  {
    seq(|obs|, i requires 0 <= i < |obs| => (obs[i], e))
  }

  /** A sequence of hook calls, each received `n` times in a row before the next. */
  function RepeatAll(s: State, es: seq<Event>, n: nat): State
    decreases |es|
  {
    if |es| == 0 then s else Repeat(RepeatAll(s, es[..|es| - 1], n), es[|es| - 1], n)
  }

  /** One more hook call at the end of a batch. */
  lemma RepeatAllSnoc(s: State, es: seq<Event>, e: Event, n: nat)
    ensures RepeatAll(s, es + [e], n) == Repeat(RepeatAll(s, es, n), e, n)
  {
    assert (es + [e])[..|es|] == es;
  }

  lemma {:induction false} RepeatAllAppend(s: State, a: seq<Event>, b: seq<Event>, n: nat)
    ensures RepeatAll(s, a + b, n) == RepeatAll(RepeatAll(s, a, n), b, n)
    decreases |b|
  {
    if |b| == 0 {
      assert a + b == a;
    } else {
      var init, last := b[..|b| - 1], b[|b| - 1];
      assert b == init + [last] && a + b == (a + init) + [last];
      RepeatAllSnoc(s, a + init, last, n);
      RepeatAllSnoc(RepeatAll(s, a, n), init, last, n);
      RepeatAllAppend(s, a, init, n);
    }
  }

  lemma {:induction false} RepeatAllValid(s: State, es: seq<Event>, n: nat)
    requires StateValid(s)
    ensures StateValid(RepeatAll(s, es, n))
    decreases |es|
  {
    if |es| > 0 {
      RepeatAllValid(s, es[..|es| - 1], n);
      RepeatValid(RepeatAll(s, es[..|es| - 1], n), es[|es| - 1], n);
    }
  }

  /** The (observer, event) pairs of several `_notify_*` loops, one after the other. */
  function FanOutAll(obs: seq<Observer>, es: seq<Event>): seq<(Observer, Event)>
    decreases |es|
  {
    if |es| == 0 then [] else FanOutAll(obs, es[..|es| - 1]) + FanOut(obs, es[|es| - 1])
  }

  lemma {:induction false} FanOutAllAppend(obs: seq<Observer>, a: seq<Event>, b: seq<Event>)
    ensures FanOutAll(obs, a + b) == FanOutAll(obs, a) + FanOutAll(obs, b)
    decreases |b|
  {
    if |b| == 0 {
      assert a + b == a;
    } else {
      var b', e := b[..|b| - 1], b[|b| - 1];
      assert (a + b)[..|a + b| - 1] == a + b' && (a + b)[|a + b| - 1] == e;
      assert FanOutAll(obs, a + b) == FanOutAll(obs, a + b') + FanOut(obs, e);
      assert FanOutAll(obs, b) == FanOutAll(obs, b') + FanOut(obs, e);
      FanOutAllAppend(obs, a, b');
    }
  }

  /** A log that recorded the calls `a` and then the calls `b` recorded `a + b`. */
  lemma LogThen(log0: seq<(Observer, Event)>, obs: seq<Observer>, a: seq<Event>, b: seq<Event>)
    ensures log0 + FanOutAll(obs, a) + FanOutAll(obs, b) == log0 + FanOutAll(obs, a + b)
  {
    FanOutAllAppend(obs, a, b);
  }

  /** Every observer receives the calls in the order they were made: the calls of one
      observer, read off the log, are each event repeated once per attachment. */
  lemma {:induction false} FanOutAllLength(obs: seq<Observer>, es: seq<Event>)
    ensures |FanOutAll(obs, es)| == |obs| * |es|
    decreases |es|
  {
    if |es| > 0 {
      FanOutAllLength(obs, es[..|es| - 1]);
    }
  }

  /** The index of the first occurrence of `x`, as `list.remove` finds it. */
  function IndexOf(s: seq<Observer>, x: Observer): (i: int)
    requires x in s
    ensures 0 <= i < |s| && s[i] == x && x !in s[..i]
  {
    if s[0] == x then 0 else
      var j := IndexOf(s[1..], x);
      assert s[1..][..j] == s[1..j + 1];
      j + 1
  }

  /** `list.remove(x)`: drop the first element equal to `x`. */
  function RemoveFirst(s: seq<Observer>, x: Observer): (r: seq<Observer>)
    requires x in s
    ensures |r| == |s| - 1
    ensures multiset(r) == multiset(s) - multiset{x}
  {
    var i := IndexOf(s, x);
    assert s == s[..i] + [s[i]] + s[i + 1..];
    s[..i] + s[i + 1..]
  }

  /** Removing the first occurrence keeps every other observer in its relative order. */
  lemma RemoveFirstKeepsOrder(s: seq<Observer>, x: Observer)
    requires x in s
    ensures var i := IndexOf(s, x);
            && RemoveFirst(s, x)[..i] == s[..i]
            && RemoveFirst(s, x)[i..] == s[i + 1..]
  {
  }

  /** The (own, other) pairs `RIBTable.compare` calls `compare` on: for each of the other
      table's observers in order, each own observer with the same name, in order. */
  function MatchPairs(own: seq<Observer>, others: seq<Observer>): (r: seq<(Observer, Observer)>)
    ensures forall k :: 0 <= k < |r| ==> r[k].0 in own && r[k].1 in others
    decreases |others|
  {
    if |others| == 0 then []
    else MatchPairs(own, others[..|others| - 1]) + SameName(own, others[|others| - 1])
  }

  function SameName(own: seq<Observer>, other: Observer): (r: seq<(Observer, Observer)>)
    ensures forall k :: 0 <= k < |r| ==> r[k].1 == other && r[k].0 in own && r[k].0.Name() == other.Name()
    decreases |own|
  {
    if |own| == 0 then []
    else SameName(own[..|own| - 1], other)
         + (if own[|own| - 1].Name() == other.Name() then [(own[|own| - 1], other)] else [])
  }

  /** Every matched pair has equal names, and every pair of same-named observers is
      matched. */
  lemma {:induction false} MatchPairsExact(own: seq<Observer>, others: seq<Observer>, a: Observer, b: Observer)
    ensures (a, b) in MatchPairs(own, others) <==> a in own && b in others && a.Name() == b.Name()
    decreases |others|
  {
    if |others| > 0 {
      var init := others[..|others| - 1];
      MatchPairsExact(own, init, a, b);
      SameNameExact(own, others[|others| - 1], a);
      assert others == init + [others[|others| - 1]];
    }
  }

  lemma {:induction false} SameNameExact(own: seq<Observer>, other: Observer, a: Observer)
    ensures (a, other) in SameName(own, other) <==> a in own && a.Name() == other.Name()
    decreases |own|
  {
    if |own| > 0 {
      var init := own[..|own| - 1];
      SameNameExact(init, other, a);
      assert own == init + [own[|own| - 1]];
    }
  }

  /** How many observers `_notify_dump` reaches: all of them, or up to and including the
      first whose dump raises. */
  function DumpReach(obs: seq<Observer>): (k: nat)
    ensures k <= |obs|
    ensures forall i :: 0 <= i < k - 1 ==> DumpError(obs[i]).None?
    ensures k < |obs| ==> k > 0 && DumpError(obs[k - 1]).Some?
    decreases |obs|
  {
    if |obs| == 0 then 0
    else if DumpError(obs[0]).Some? then 1
    else 1 + DumpReach(obs[1..])
  }

  /** One observer's hook for one build or update event. */
  method Deliver(o: Observer, e: Event)
    requires !e.Dump? && ObsValid(o)
    modifies o.Target()
    ensures ObsValid(o)
    ensures StateOf(o) == Step(old(StateOf(o)), e)
  {
    match o
    case GraphObs(g) => DeliverGraph(g, e);
    case MultiGraphObs(m) => DeliverMultiGraph(m, e);
    case PathObs(p) => DeliverPath(p, e);
    case CountObs(c) => DeliverCount(c, e);
  }

  method DeliverGraph(g: ASGraphObserver, e: Event)
    requires !e.Dump? && g.Valid()
    modifies g
    ensures g.Valid() && g.Graphs() == GraphStep(old(g.Graphs()), e)
  {
    match e
    case AddPath(fam, rc, peerIp, pfx, path) => g.AddPathHook(fam, rc, peerIp, pfx, path);
    case Withdrawal(fam, rc, peerIp, pfx, path) => g.UpdateWithdrawal(fam, rc, peerIp, pfx, path);
    case Announcement(fam, rc, peerIp, pfx, newPath, oldPath) =>
      g.UpdateAnnouncement(fam, rc, peerIp, pfx, newPath, oldPath);
  }

  method DeliverMultiGraph(m: ASMultiGraphObserver, e: Event)
    requires !e.Dump? && m.Valid()
    modifies m
    ensures m.Valid() && m.Graphs() == MultiGraphStep(old(m.Graphs()), e)
  {
    match e
    case AddPath(fam, rc, peerIp, pfx, path) => m.AddPathHook(fam, rc, peerIp, pfx, path);
    case Withdrawal(fam, rc, peerIp, pfx, path) => m.UpdateWithdrawal(fam, rc, peerIp, pfx, path);
    case Announcement(fam, rc, peerIp, pfx, newPath, oldPath) =>
      m.UpdateAnnouncement(fam, rc, peerIp, pfx, newPath, oldPath);
  }

  method DeliverPath(p: PathObserver, e: Event)
    requires !e.Dump? && p.Valid()
    modifies p
    ensures p.Valid() && p.pathsCount == PathStep(old(p.pathsCount), e)
  {
    match e
    case AddPath(fam, rc, peerIp, pfx, path) => p.AddPathHook(fam, rc, peerIp, pfx, path);
    case Withdrawal(fam, rc, peerIp, pfx, path) => p.UpdateWithdrawal(fam, rc, peerIp, pfx, path);
    case Announcement(fam, rc, peerIp, pfx, newPath, oldPath) =>
      p.UpdateAnnouncement(fam, rc, peerIp, pfx, newPath, oldPath);
  }

  method DeliverCount(c: UpdateCountObserver, e: Event)
    requires !e.Dump? && c.Valid()
    modifies c
    ensures c.Valid() && c.Counters() == CountStep(old(c.Counters()), e)
  {
    match e
    case AddPath(fam, rc, peerIp, pfx, path) => c.AddPathHook(fam, rc, peerIp, pfx, path);
    case Withdrawal(fam, rc, peerIp, pfx, path) => c.UpdateWithdrawal(fam, rc, peerIp, pfx, path);
    case Announcement(fam, rc, peerIp, pfx, newPath, oldPath) =>
      c.UpdateAnnouncement(fam, rc, peerIp, pfx, newPath, oldPath);
  }

  /** The error `observer.dump(ts)` raises: only a graph observer built without a
      multigraph observer fails. */
  function DumpError(o: Observer): Option<PyError> {
    if o.GraphObs? && o.g.multigraph.None? then Some(AttributeError) else None
  }

  /** One observer's `dump(ts)`; no dump changes any observer. */
  method DeliverDump(o: Observer, ts: int) returns (err: Option<PyError>)
    requires ObsValid(o)
    ensures err == DumpError(o)
  {
    match o
    case GraphObs(g) =>
      var r := g.Dump(ts);
      err := if r.Err? then Some(r.error) else None;
    case MultiGraphObs(m) =>
      m.Dump(ts);
      err := None;
    case PathObs(p) =>
      var d := p.Dump(ts);
      err := None;
    case CountObs(c) =>
      var d := c.Dump(ts);
      err := None;
  }

  /** `own_observer.compare(other_observer)`: a graph observer drops its isolated IPv4
      nodes and compares its IPv4 graph with the other's; the path and update-count
      observers do nothing; the multigraph observer inherits the base class's
      NotImplementedError. */
  method CompareWith(own: Observer, other: Observer) returns (r: Result<Option<Comparison>>)
    modifies own.Target()
    ensures own.GraphObs? ==> own.g.graph4 == PruneIsolates(old(own.g.graph4)) && own.g.graph6 == old(own.g.graph6)
    ensures own.GraphObs? && other.GraphObs? ==> r == Ok(Some(CompareWeightedGraphs(own.g.graph4, other.g.graph4)))
    ensures own.GraphObs? && (other.PathObs? || other.CountObs?) ==> r == Err(AttributeError)
    ensures own.GraphObs? && other.MultiGraphObs? ==> r == Ok(None)
    ensures own.MultiGraphObs? ==> r == Err(NotImplementedError)
    ensures own.PathObs? || own.CountObs? ==> r == Ok(None)
    ensures !own.GraphObs? ==> unchanged(own.Target())
  {
    match own
    case GraphObs(g) =>
      if other.GraphObs? {
        var c := g.Compare(other.g);
        r := Ok(Some(c));
      } else {
        g.graph4 := PruneIsolates(g.graph4);
        r := if other.MultiGraphObs? then Ok(None) else Err(AttributeError);
      }
    case MultiGraphObs(_) => r := Err(NotImplementedError);
    case PathObs(_) => r := Ok(None);
    case CountObs(_) => r := Ok(None);
  }
}
