/** The path observer of observers/path.py: one `path -> count` map shared by both
    address families, and a dump of the number of distinct paths, the counts and the
    histogram of path lengths. */
module PathCount {
  import opened Common
  import opened AsPath
  import opened Counts
  import opened ObserverApi

  /** `_remove_path`: decrement (a missing path reads as 0) and pop the path when its count
      is no longer positive. */
  function RemovePath(m: map<Path, int>, p: Path): (r: map<Path, int>)
    ensures p in r <==> Get(m, p) > 1
    ensures p in r ==> r[p] == Get(m, p) - 1
    ensures forall q | q != p :: (q in r <==> q in m) && (q in r ==> r[q] == m[q])
  {
    var c := Get(m, p) - 1;
    if c <= 0 then m - {p} else m[p := c]
  }

  /** With every stored count positive, the `<= 0` pop is the decrement of a count map. */
  lemma RemovePathIsDec(m: map<Path, int>, p: Path)
    requires Positive(m)
    ensures RemovePath(m, p) == Dec(m, p)
  {
  }

  /** The effect of one hook call on `paths_count`. */
  function PathStep(m: map<Path, int>, e: Event): map<Path, int> {
    match e
    case AddPath(_, _, _, _, path) => Inc(m, path)
    case Withdrawal(_, _, _, _, path) => RemovePath(m, path)
    case Announcement(_, _, _, _, newPath, oldPath) =>
      Inc(if Truthy(oldPath) then RemovePath(m, oldPath.value) else m, newPath)
    case Dump(_) => m
  }

  lemma PathStepPositive(m: map<Path, int>, e: Event)
    requires Positive(m)
    ensures Positive(PathStep(m, e))
  {
  }

  /** An announcement replacing a stored path moves one unit of count from the old path
      to the new one and leaves every other path alone. */
  lemma AnnouncementMovesCount(m: map<Path, int>, e: Event, q: Path)
    requires Positive(m) && e.Announcement? && Truthy(e.oldPath) && e.oldPath.value in m
    ensures Get(PathStep(m, e), q) ==
            Get(m, q) + (if q == e.newPath then 1 else 0) - (if q == e.oldPath.value then 1 else 0)
  {
  }

  /** Withdrawing a path that was just added restores the counts. */
  lemma AddThenWithdraw(m: map<Path, int>, fam: Family, rc: string, peerIp: string, pfx: string, p: Path)
    requires Positive(m)
    ensures PathStep(PathStep(m, AddPath(fam, rc, peerIp, pfx, p)), Withdrawal(fam, rc, peerIp, pfx, p)) == m
  {
    IncThenDec(m, p);
    RemovePathIsDec(Inc(m, p), p);
  }

  /** The paths of a given length. */
  function WithLength(ps: set<Path>, n: int): set<Path> {
    set p | p in ps && |p| == n
  }

  function Lengths(ps: set<Path>): set<int> {
    set p | p in ps :: |p|
  }

  /** `paths_length_count`: for every length that occurs, the number of distinct paths of
      that length. */
  function LengthHistogram(m: map<Path, int>): map<int, int> {
    Histogram(m.Keys)
  }

  /** For every length that occurs among `ps`, the number of paths of that length. */
  function Histogram(ps: set<Path>): map<int, int> {
    map n | n in Lengths(ps) :: |WithLength(ps, n)|
  }

  /** What `dump` serialises. */
  datatype PathDump = PathDump(nUniquePaths: nat, pathsCount: map<Path, int>, pathsLengthCount: map<int, int>)

  lemma WithLengthGrows(done: set<Path>, p: Path, n: int)
    requires p !in done
    ensures |WithLength(done + {p}, n)| == |WithLength(done, n)| + (if |p| == n then 1 else 0)
  {
    if |p| == n {
      assert WithLength(done + {p}, n) == WithLength(done, n) + {p};
    } else {
      assert WithLength(done + {p}, n) == WithLength(done, n);
    }
  }

  /** `hist` is the length histogram of the paths `done`. */
  ghost predicate CountsLengths(hist: map<int, int>, done: set<Path>) {
    hist.Keys == Lengths(done) && forall n | n in hist :: hist[n] == |WithLength(done, n)|
  }

  /** Counting one more path of length `|p|` keeps the histogram right. */
  lemma HistogramGrows(hist: map<int, int>, done: set<Path>, p: Path)
    requires CountsLengths(hist, done) && p !in done
    ensures CountsLengths(if |p| in hist then hist[|p| := hist[|p|] + 1] else hist[|p| := 1], done + {p})
  {
    forall n ensures |WithLength(done + {p}, n)| == |WithLength(done, n)| + (if |p| == n then 1 else 0) {
      WithLengthGrows(done, p, n);
    }
    assert |WithLength(done, |p|)| == 0 ==> |p| !in Lengths(done) by {
      if |p| in Lengths(done) {
        var q :| q in done && |q| == |p|;
        assert q in WithLength(done, |p|);
      }
    }
  }

  /** Every distinct path sits in exactly one bucket, so the buckets add up to the number
      of distinct paths. */
  lemma {:induction false} HistogramTotal(ps: set<Path>)
    ensures Total(Histogram(ps)) == |ps|
    decreases |ps|
  {
    if ps != {} {
      var p :| p in ps;
      var rest := ps - {p};
      HistogramTotal(rest);
      HistogramGrows(Histogram(rest), rest, p);
      assert rest + {p} == ps;
      assert Inc(Histogram(rest), |p|) == Histogram(ps);
      TotalInc(Histogram(rest), |p|);
    }
  }

  /** The values of `paths_length_count` sum to `n_unique_paths`. */
  lemma HistogramSumsToUniquePaths(m: map<Path, int>)
    ensures Total(LengthHistogram(m)) == |m.Keys|
  {
    HistogramTotal(m.Keys);
  }

  lemma HistogramDone(hist: map<int, int>, m: map<Path, int>)
    requires CountsLengths(hist, m.Keys)
    ensures hist == LengthHistogram(m)
  {
  }

  class PathObserver {
    const settings: Settings
    var pathsCount: map<Path, int>

    ghost predicate Valid()
      reads this
    {
      Positive(pathsCount)
    }

    constructor(name: string := DefaultName, outputDir: string := DefaultOutputDir,
                timeFmt: string := DefaultTimeFmt)
      ensures Valid()
      ensures settings == BaseSettings(name, outputDir, timeFmt) && pathsCount == map[]
    {
      settings := BaseSettings(name, outputDir, timeFmt);
      pathsCount := map[];
    }

    method AddPathTo(path: Path)
      requires Valid()
      modifies this
      ensures Valid()
      ensures pathsCount == Inc(old(pathsCount), path)
    {
      if path in pathsCount {
        pathsCount := pathsCount[path := pathsCount[path] + 1];
      } else {
        pathsCount := pathsCount[path := 1];
      }
    }

    method RemovePathFrom(path: Path)
      requires Valid()
      modifies this
      ensures Valid()
      ensures pathsCount == RemovePath(old(pathsCount), path)
    {
      var c := (if path in pathsCount then pathsCount[path] else 0) - 1;
      if c <= 0 {
        pathsCount := pathsCount - {path};
      } else {
        pathsCount := pathsCount[path := c];
      }
    }

    method AddPathHook(fam: Family, rc: string, peerIp: string, pfx: string, path: Path)
      requires Valid()
      modifies this
      ensures Valid()
      ensures pathsCount == PathStep(old(pathsCount), AddPath(fam, rc, peerIp, pfx, path))
    {
      AddPathTo(path);
    }

    method UpdateWithdrawal(fam: Family, rc: string, peerIp: string, pfx: string, path: Path)
      requires Valid()
      modifies this
      ensures Valid()
      ensures pathsCount == PathStep(old(pathsCount), Withdrawal(fam, rc, peerIp, pfx, path))
    {
      RemovePathFrom(path);
    }

    method UpdateAnnouncement(fam: Family, rc: string, peerIp: string, pfx: string, newPath: Path,
                              oldPath: Option<Path>)
      requires Valid()
      modifies this
      ensures Valid()
      ensures pathsCount == PathStep(old(pathsCount), Announcement(fam, rc, peerIp, pfx, newPath, oldPath))
    {
      if oldPath.Some? && oldPath.value != [] {
        RemovePathFrom(oldPath.value);
      }
      AddPathTo(newPath);
    }

    /** `dump`: the loop over `paths_count` builds the length histogram. */
    method Dump(ts: int) returns (d: PathDump)
      ensures d.nUniquePaths == |pathsCount.Keys|
      ensures d.pathsCount == pathsCount
      ensures d.pathsLengthCount == LengthHistogram(pathsCount)
      ensures Total(d.pathsLengthCount) == d.nUniquePaths
    {
      var hist: map<int, int> := map[];
      var todo := pathsCount.Keys;
      ghost var done: set<Path> := {};
      while todo != {}
        invariant todo !! done && todo + done == pathsCount.Keys
        invariant CountsLengths(hist, done)
        decreases todo
      {
        var p :| p in todo;
        HistogramGrows(hist, done, p);
        if |p| in hist {
          hist := hist[|p| := hist[|p|] + 1];
        } else {
          hist := hist[|p| := 1];
        }
        todo := todo - {p};
        done := done + {p};
      }
      HistogramDone(hist, pathsCount);
      HistogramSumsToUniquePaths(pathsCount);
      d := PathDump(|pathsCount|, pathsCount, hist);
    }

    /** `compare` does nothing for this observer. */
    method Compare(other: PathObserver)
    {
    }
  }

  /** The histogram counts every distinct path exactly once: its lengths are exactly the
      lengths that occur, and each bucket is non-empty and holds the paths of that length. */
  lemma HistogramBuckets(m: map<Path, int>, p: Path)
    requires p in m
    ensures |p| in LengthHistogram(m)
    ensures p in WithLength(m.Keys, |p|)
    ensures LengthHistogram(m)[|p|] >= 1
  {
    assert p in WithLength(m.Keys, |p|);
  }
}
