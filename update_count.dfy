/** The update-count observer of observers/update_count.py: per route collector, the number
    of updates, of withdrawals and announcements per family, and of updates per peer. RIB
    construction (`add_path_*`) is not counted. */
module UpdateCount {
  import opened Common
  import opened AsPath
  import opened Counts
  import opened ObserverApi

  /** The six counters, keyed by route collector (and then by peer address). */
  datatype UpdateCounts = UpdateCounts(
    nUpdates: map<string, int>,
    nWithdrawals4: map<string, int>,
    nWithdrawals6: map<string, int>,
    nAnnouncements4: map<string, int>,
    nAnnouncements6: map<string, int>,
    nUpdatesPerPeer: map<string, map<string, int>>)

  const NoCounts: UpdateCounts := UpdateCounts(map[], map[], map[], map[], map[], map[])

  /** The per-peer counters of one collector; a collector never counted has none. */
  function PeerCounts(c: UpdateCounts, rc: string): map<string, int> {
    if rc in c.nUpdatesPerPeer then c.nUpdatesPerPeer[rc] else map[]
  }

  /** `n_updates_per_peer[rc][peer_ip] += 1` on the nested defaultdict. */
  function IncPeer(pp: map<string, map<string, int>>, rc: string, peerIp: string): map<string, map<string, int>> {
    pp[rc := Inc(if rc in pp then pp[rc] else map[], peerIp)]
  }

  /** One counted update of collector `rc` by peer `peerIp`: the collector's total, the
      counter of the update's kind and family, and the peer's counter each go up by one. */
  function Counted(c: UpdateCounts, rc: string, peerIp: string, withdrawal: bool, fam: Family): UpdateCounts {
    UpdateCounts(
      Inc(c.nUpdates, rc),
      if withdrawal && fam == IPv4 then Inc(c.nWithdrawals4, rc) else c.nWithdrawals4,
      if withdrawal && fam == IPv6 then Inc(c.nWithdrawals6, rc) else c.nWithdrawals6,
      if !withdrawal && fam == IPv4 then Inc(c.nAnnouncements4, rc) else c.nAnnouncements4,
      if !withdrawal && fam == IPv6 then Inc(c.nAnnouncements6, rc) else c.nAnnouncements6,
      IncPeer(c.nUpdatesPerPeer, rc, peerIp))
  }

  /** The effect of one hook call: withdrawals and announcements are counted, RIB
      construction and dumps are not. */
  function CountStep(c: UpdateCounts, e: Event): UpdateCounts {
    match e
    case AddPath(_, _, _, _, _) => c
    case Dump(_) => c
    case Withdrawal(fam, rc, peerIp, _, _) => Counted(c, rc, peerIp, true, fam)
    case Announcement(fam, rc, peerIp, _, _, _) => Counted(c, rc, peerIp, false, fam)
  }

  /** For every collector, the total is the sum of the four kind/family counters. */
  ghost predicate KindsAddUp(c: UpdateCounts) {
    forall rc :: Get(c.nUpdates, rc) ==
      Get(c.nWithdrawals4, rc) + Get(c.nWithdrawals6, rc) + Get(c.nAnnouncements4, rc) + Get(c.nAnnouncements6, rc)
  }

  /** For every collector, the total is the sum of its per-peer counters. */
  ghost predicate PeersAddUp(c: UpdateCounts) {
    forall rc :: Get(c.nUpdates, rc) == Total(PeerCounts(c, rc))
  }

  ghost predicate Consistent(c: UpdateCounts) {
    KindsAddUp(c) && PeersAddUp(c)
  }

  lemma NoCountsConsistent()
    ensures Consistent(NoCounts)
  {
  }

  /** Every hook keeps the counters consistent with one another. */
  lemma CountStepConsistent(c: UpdateCounts, e: Event)
    requires Consistent(c)
    ensures Consistent(CountStep(c, e))
  {
    KindsStep(c, e);
    PeersStep(c, e);
  }

  function Bump(b: bool): int {
    if b then 1 else 0
  }

  /** Each counter of a collector moves by one exactly when the event is of its kind,
      family and collector. */
  lemma CountStepAt(c: UpdateCounts, e: Event, rc: string)
    ensures var isUpdate := (e.Withdrawal? || e.Announcement?) && e.rc == rc;
            var c' := CountStep(c, e);
            && Get(c'.nUpdates, rc) == Get(c.nUpdates, rc) + Bump(isUpdate)
            && Get(c'.nWithdrawals4, rc) == Get(c.nWithdrawals4, rc) + Bump(isUpdate && e.Withdrawal? && e.fam == IPv4)
            && Get(c'.nWithdrawals6, rc) == Get(c.nWithdrawals6, rc) + Bump(isUpdate && e.Withdrawal? && e.fam == IPv6)
            && Get(c'.nAnnouncements4, rc) == Get(c.nAnnouncements4, rc) + Bump(isUpdate && e.Announcement? && e.fam == IPv4)
            && Get(c'.nAnnouncements6, rc) == Get(c.nAnnouncements6, rc) + Bump(isUpdate && e.Announcement? && e.fam == IPv6)
  {
  }

  lemma KindsStep(c: UpdateCounts, e: Event)
    requires KindsAddUp(c)
    ensures KindsAddUp(CountStep(c, e))
  {
    forall rc ensures Get(CountStep(c, e).nUpdates, rc) ==
        Get(CountStep(c, e).nWithdrawals4, rc) + Get(CountStep(c, e).nWithdrawals6, rc)
        + Get(CountStep(c, e).nAnnouncements4, rc) + Get(CountStep(c, e).nAnnouncements6, rc)
    {
      CountStepAt(c, e, rc);
    }
  }

  lemma PeersStep(c: UpdateCounts, e: Event)
    requires PeersAddUp(c)
    ensures PeersAddUp(CountStep(c, e))
  {
    forall rc ensures Get(CountStep(c, e).nUpdates, rc) == Total(PeerCounts(CountStep(c, e), rc)) {
      PeerStep(c, e, rc);
    }
  }

  lemma PeerStep(c: UpdateCounts, e: Event, rc: string)
    requires Get(c.nUpdates, rc) == Total(PeerCounts(c, rc))
    ensures Get(CountStep(c, e).nUpdates, rc) == Total(PeerCounts(CountStep(c, e), rc))
  {
    match e
    case AddPath(_, _, _, _, _) =>
    case Dump(_) =>
    case Withdrawal(_, erc, peerIp, _, _) => PeerUpdateStep(c, e, rc);
    case Announcement(_, erc, peerIp, _, _, _) => PeerUpdateStep(c, e, rc);
  }

  lemma PeerUpdateStep(c: UpdateCounts, e: Event, rc: string)
    requires e.Withdrawal? || e.Announcement?
    requires Get(c.nUpdates, rc) == Total(PeerCounts(c, rc))
    ensures Get(CountStep(c, e).nUpdates, rc) == Total(PeerCounts(CountStep(c, e), rc))
  {
    CountStepEffect(c, e, rc);
    if rc == e.rc {
      PeerCountsBumped(c, e);
      TotalInc(PeerCounts(c, rc), e.peerIp);
    }
  }

  lemma PeerCountsBumped(c: UpdateCounts, e: Event)
    requires e.Withdrawal? || e.Announcement?
    ensures PeerCounts(CountStep(c, e), e.rc) == Inc(PeerCounts(c, e.rc), e.peerIp)
  {
  }

  /** A withdrawal or announcement raises its own collector's total by exactly one and
      leaves every other collector's counters unchanged; RIB construction and dumps change
      nothing. */
  lemma CountStepEffect(c: UpdateCounts, e: Event, rc: string)
    ensures (e.Withdrawal? || e.Announcement?) && rc == e.rc ==>
              Get(CountStep(c, e).nUpdates, rc) == Get(c.nUpdates, rc) + 1
    ensures (e.AddPath? || e.Dump? || rc != e.rc) ==>
              Get(CountStep(c, e).nUpdates, rc) == Get(c.nUpdates, rc)
              && PeerCounts(CountStep(c, e), rc) == PeerCounts(c, rc)
  {
  }

  class UpdateCountObserver {
    const settings: Settings
    var nUpdates: map<string, int>
    var nWithdrawals4: map<string, int>
    var nWithdrawals6: map<string, int>
    var nAnnouncements4: map<string, int>
    var nAnnouncements6: map<string, int>
    var nUpdatesPerPeer: map<string, map<string, int>>

    function Counters(): UpdateCounts
      reads this
    {
      UpdateCounts(nUpdates, nWithdrawals4, nWithdrawals6, nAnnouncements4, nAnnouncements6, nUpdatesPerPeer)
    }

    ghost predicate Valid()
      reads this
    {
      Consistent(Counters())
    }

    constructor(name: string := DefaultName, outputDir: string := DefaultOutputDir,
                timeFmt: string := DefaultTimeFmt)
      ensures Valid()
      ensures settings == BaseSettings(name, outputDir, timeFmt) && Counters() == NoCounts
    {
      settings := BaseSettings(name, outputDir, timeFmt);
      nUpdates, nWithdrawals4, nWithdrawals6 := map[], map[], map[];
      nAnnouncements4, nAnnouncements6, nUpdatesPerPeer := map[], map[], map[];
    }

    /** `add_path_ipv4` / `add_path_ipv6` do nothing. */
    method AddPathHook(fam: Family, rc: string, peerIp: string, pfx: string, path: Path)
      requires Valid()
      modifies this
      ensures Valid()
      ensures Counters() == CountStep(old(Counters()), AddPath(fam, rc, peerIp, pfx, path))
    {
    }

    /** The two counters every update bumps. */
    method CountUpdate(rc: string, peerIp: string)
      modifies this
      ensures Counters() == old(Counters()).(nUpdates := Inc(old(nUpdates), rc),
                                             nUpdatesPerPeer := IncPeer(old(nUpdatesPerPeer), rc, peerIp))
    {
      nUpdates := Inc(nUpdates, rc);
      var perPeer := if rc in nUpdatesPerPeer then nUpdatesPerPeer[rc] else map[];
      nUpdatesPerPeer := nUpdatesPerPeer[rc := Inc(perPeer, peerIp)];
    }

    method UpdateWithdrawal(fam: Family, rc: string, peerIp: string, pfx: string, path: Path)
      requires Valid()
      modifies this
      ensures Valid()
      ensures Counters() == CountStep(old(Counters()), Withdrawal(fam, rc, peerIp, pfx, path))
    {
      CountStepConsistent(Counters(), Withdrawal(fam, rc, peerIp, pfx, path));
      ghost var next := CountStep(Counters(), Withdrawal(fam, rc, peerIp, pfx, path));
      CountUpdate(rc, peerIp);
      if fam == IPv4 {
        nWithdrawals4 := Inc(nWithdrawals4, rc);
      } else {
        nWithdrawals6 := Inc(nWithdrawals6, rc);
      }
      assert Counters() == next;
    }

    method UpdateAnnouncement(fam: Family, rc: string, peerIp: string, pfx: string, newPath: Path,
                              oldPath: Option<Path>)
      requires Valid()
      modifies this
      ensures Valid()
      ensures Counters() == CountStep(old(Counters()), Announcement(fam, rc, peerIp, pfx, newPath, oldPath))
    {
      CountStepConsistent(Counters(), Announcement(fam, rc, peerIp, pfx, newPath, oldPath));
      ghost var next := CountStep(Counters(), Announcement(fam, rc, peerIp, pfx, newPath, oldPath));
      CountUpdate(rc, peerIp);
      if fam == IPv4 {
        nAnnouncements4 := Inc(nAnnouncements4, rc);
      } else {
        nAnnouncements6 := Inc(nAnnouncements6, rc);
      }
      assert Counters() == next;
    }

    /** `dump` serialises the six counters as they stand. */
    method Dump(ts: int) returns (d: UpdateCounts)
      requires Valid()
      ensures d == Counters() && Consistent(d)
    {
      d := Counters();
    }

    /** `compare` does nothing for this observer. */
    method Compare(other: UpdateCountObserver)
    {
    }
  }
}
