/** The pure part of the RIB reconstruction engine of rib_table.py: what one bootstrap line
    or one update record does to a collector's table and which hook calls it produces, the
    same over a whole file, and `dict_diff`. Records arrive already split on '|'. */
module Rib {
  import opened Common
  import opened Strings
  import opened AsPath
  import opened ObserverApi

  /** prefix -> AS path, for one peer. */
  type PeerRib = map<string, Path>
  /** peer_ip -> prefix -> AS path, for one route collector. */
  type CollectorRib = map<string, PeerRib>

  /** The settings a `RIBTable` is created with. Times are whole seconds since the epoch. */
  datatype Config = Config(peerIpFilter: seq<string>, tsStart: int, tsEnd: int)

  /** An empty filter lets every peer through. */
  predicate PassesFilter(filter: seq<string>, peerIp: string) {
    |filter| == 0 || peerIp in filter
  }

  /** The hook call that reports `mk` for a prefix: IPv4 if the prefix has a dot, IPv6 if
      it has a colon, none otherwise. */
  function AddPathEvents(rc: string, peerIp: string, pfx: string, path: Path): (r: seq<Event>)
    ensures FamilyOf(pfx).Some? <==> |r| == 1
    ensures |r| <= 1
    ensures |r| == 1 ==> r[0] == AddPath(FamilyOf(pfx).value, rc, peerIp, pfx, path)
  {
    match FamilyOf(pfx)
    case None => []
    case Some(fam) => [AddPath(fam, rc, peerIp, pfx, path)]
  }

  function WithdrawEvents(rc: string, peerIp: string, pfx: string, path: Path): (r: seq<Event>)
    ensures FamilyOf(pfx).Some? <==> |r| == 1
    ensures |r| <= 1
    ensures |r| == 1 ==> r[0] == Withdrawal(FamilyOf(pfx).value, rc, peerIp, pfx, path)
  {
    match FamilyOf(pfx)
    case None => []
    case Some(fam) => [Withdrawal(fam, rc, peerIp, pfx, path)]
  }

  function AnnounceEvents(rc: string, peerIp: string, pfx: string, newPath: Path, oldPath: Option<Path>): (r: seq<Event>)
    ensures FamilyOf(pfx).Some? <==> |r| == 1
    ensures |r| <= 1
    ensures |r| == 1 ==> r[0] == Announcement(FamilyOf(pfx).value, rc, peerIp, pfx, newPath, oldPath)
  {
    match FamilyOf(pfx)
    case None => []
    case Some(fam) => [Announcement(fam, rc, peerIp, pfx, newPath, oldPath)]
  }

  // ---- Bootstrap: `_build_rib_from_url` ----

  datatype Entry = Entry(peerIp: string, pfx: string, path: Path)

  /** One line of a RIB dump. Unpacking `res[3:7]` needs seven fields and `int(peer_asn)`
      a well-formed ASN; both sit outside the `try`, so they abort the build. A line that
      passes the peer filter and has a valid path is stored; any other is skipped. */
  function BuildLine(fields: seq<string>, filter: seq<string>): (r: Result<Option<Entry>>)
    ensures r.Err? <==> |fields| < 7 || ParseInt(fields[4]).None?
    ensures r.Err? ==> r.error == ValueError
    ensures r.Ok? && r.value.Some? ==>
              && r.value.value == Entry(fields[3], fields[5], r.value.value.path)
              && PassesFilter(filter, fields[3])
              && ParsePath(fields[6]) == Some(r.value.value.path)
              && IsValidPath(r.value.value.path, ParseInt(fields[4]).value)
    ensures |fields| >= 7 && ParseInt(fields[4]).Some? && PassesFilter(filter, fields[3])
            && ParsePath(fields[6]).Some? && IsValidPath(ParsePath(fields[6]).value, ParseInt(fields[4]).value)
            ==> r.Ok? && r.value.Some?
  {
    if |fields| < 7 then Err(ValueError)
    else
      var peerIp, peerAsn, pfx, asPath := fields[3], fields[4], fields[5], fields[6];
      match ParseInt(peerAsn)
      case None => Err(ValueError)
      case Some(asn) =>
        if !PassesFilter(filter, peerIp) then Ok(None)
        else match ParsePath(asPath)
          case None => Ok(None)
          case Some(path) => if IsValidPath(path, asn) then Ok(Some(Entry(peerIp, pfx, path))) else Ok(None)
  }

  /** `peer_to_pfx_to_path[peer_ip][pfx] = path` on the defaultdict: the peer's table is
      created on first use. */
  function Store(rib: CollectorRib, en: Entry): CollectorRib {
    rib[en.peerIp := (if en.peerIp in rib then rib[en.peerIp] else map[])[en.pfx := en.path]]
  }

  /** The table built so far, the hook calls made so far, and the error that ended the
      build, if any. */
  datatype BuildRun = BuildRun(rib: CollectorRib, events: seq<Event>, err: Option<PyError>)

  /** The line loop of `_build_rib_from_url` over the first `|lines|` lines: each stored
      line is written to the table, then reported with `add_path_*`. */
  function BuildFile(lines: seq<seq<string>>, rc: string, filter: seq<string>): BuildRun
    decreases |lines|
  {
    if |lines| == 0 then BuildRun(map[], [], None)
    else
      var prev := BuildFile(lines[..|lines| - 1], rc, filter);
      if prev.err.Some? then prev else LineEffect(prev, lines[|lines| - 1], rc, filter)
  }

  /** The body of the line loop: a failing line raises, a filtered line is skipped, and a
      stored line is written to the table, then reported. */
  function LineEffect(prev: BuildRun, line: seq<string>, rc: string, filter: seq<string>): BuildRun {
    match BuildLine(line, filter)
    case Err(e) => prev.(err := Some(e))
    case Ok(None) => prev
    case Ok(Some(en)) => BuildRun(Store(prev.rib, en), prev.events + AddPathEvents(rc, en.peerIp, en.pfx, en.path), None)
  }

  /** One more line of the loop. */
  lemma BuildFileStep(lines: seq<seq<string>>, rc: string, filter: seq<string>, i: int)
    requires 0 <= i < |lines| && BuildFile(lines[..i], rc, filter).err.None?
    ensures BuildFile(lines[..i + 1], rc, filter) == LineEffect(BuildFile(lines[..i], rc, filter), lines[i], rc, filter)
  {
    assert lines[..i + 1][..i] == lines[..i];
  }

  /** The line `lines[i]` is stored as `en`. */
  predicate StoredAt(lines: seq<seq<string>>, filter: seq<string>, i: int, en: Entry)
    requires 0 <= i < |lines|
  {
    BuildLine(lines[i], filter) == Ok(Some(en))
  }

  /** Every entry of a built table comes from a line of the file that passed the filter and
      carried a valid path for that peer and prefix. */
  lemma {:induction false} BuildProvenance(lines: seq<seq<string>>, rc: string, filter: seq<string>,
                                           peerIp: string, pfx: string)
    requires peerIp in BuildFile(lines, rc, filter).rib && pfx in BuildFile(lines, rc, filter).rib[peerIp]
    ensures exists i :: 0 <= i < |lines| &&
              StoredAt(lines, filter, i, Entry(peerIp, pfx, BuildFile(lines, rc, filter).rib[peerIp][pfx]))
    decreases |lines|
  {
    assert |lines| > 0;
    var init := lines[..|lines| - 1];
    var prev := BuildFile(init, rc, filter);
    var rib := BuildFile(lines, rc, filter).rib;
    var target := Entry(peerIp, pfx, rib[peerIp][pfx]);
    var last := BuildLine(lines[|lines| - 1], filter);
    if prev.err.None? && last.Ok? && last.value.Some? && last.value.value.peerIp == peerIp && last.value.value.pfx == pfx {
      assert last.value.value == target;
      assert StoredAt(lines, filter, |lines| - 1, target);
    } else {
      assert peerIp in prev.rib && pfx in prev.rib[peerIp] && prev.rib[peerIp][pfx] == rib[peerIp][pfx];
      BuildProvenance(init, rc, filter, peerIp, pfx);
      var i :| 0 <= i < |init| && StoredAt(init, filter, i, target);
      assert lines[i] == init[i];
      assert StoredAt(lines, filter, i, target);
    }
  }

  /** A later line for the same peer and prefix overwrites an earlier one: when the build
      does not fail, the entry is the one of the last stored line for that peer and prefix. */
  lemma {:induction false} BuildLastLineWins(lines: seq<seq<string>>, rc: string, filter: seq<string>,
                                             i: int, en: Entry)
    requires 0 <= i < |lines| && StoredAt(lines, filter, i, en)
    requires BuildFile(lines, rc, filter).err.None?
    requires forall j | i < j < |lines| && BuildLine(lines[j], filter).Ok? && BuildLine(lines[j], filter).value.Some? ::
               BuildLine(lines[j], filter).value.value.peerIp != en.peerIp || BuildLine(lines[j], filter).value.value.pfx != en.pfx
    ensures en.peerIp in BuildFile(lines, rc, filter).rib
    ensures en.pfx in BuildFile(lines, rc, filter).rib[en.peerIp]
    ensures BuildFile(lines, rc, filter).rib[en.peerIp][en.pfx] == en.path
    decreases |lines|
  {
    var init := lines[..|lines| - 1];
    var prev := BuildFile(init, rc, filter);
    assert prev.err.None?;
    if i < |lines| - 1 {
      assert init[i] == lines[i];
      forall j | i < j < |init| && BuildLine(init[j], filter).Ok? && BuildLine(init[j], filter).value.Some?
        ensures BuildLine(init[j], filter).value.value.peerIp != en.peerIp || BuildLine(init[j], filter).value.value.pfx != en.pfx
      {
        assert init[j] == lines[j];
      }
      BuildLastLineWins(init, rc, filter, i, en);
      var last := BuildLine(lines[|lines| - 1], filter);
      if last.Ok? && last.value.Some? {
        assert last.value.value.peerIp != en.peerIp || last.value.value.pfx != en.pfx;
      }
    }
  }

  /** A failed build keeps failing: once a line aborts it, later lines change nothing. */
  lemma {:induction false} BuildFailureSticks(lines: seq<seq<string>>, rc: string, filter: seq<string>, k: int)
    requires 0 <= k <= |lines|
    requires BuildFile(lines[..k], rc, filter).err.Some?
    ensures BuildFile(lines, rc, filter) == BuildFile(lines[..k], rc, filter)
    decreases |lines|
  {
    if k < |lines| {
      assert lines[..|lines| - 1][..k] == lines[..k];
      BuildFailureSticks(lines[..|lines| - 1], rc, filter, k);
    } else {
      assert lines[..k] == lines;
    }
  }

  // ---- Updates: `_update_rib_from_url` ----

  const MicrosPerSecond: int := 1000000

  function Pow10(n: nat): (r: nat)
    ensures r >= 1
  {
    if n == 0 then 1 else 10 * Pow10(n - 1)
  }

  /** `float(update[1])` as whole microseconds: decimal digits with an optional fraction
      (at least one digit in all); digits past the sixth decimal place are dropped. */
  function ParseMicros(s: string): (r: Option<int>)
    ensures r.Some? ==> r.value >= 0
  {
    var parts := Split(s, '.');
    if |parts| > 2 then None
    else
      var whole := parts[0];
      var frac := if |parts| == 2 then parts[1] else "";
      if |whole| + |frac| == 0 || !AllDigits(whole) || !AllDigits(frac) then None
      else
        var kept := if |frac| <= 6 then frac else frac[..6];
        Some(ParseDigits(whole) * MicrosPerSecond + ParseDigits(kept) * Pow10(6 - |kept|))
  }

  lemma DigitsHaveNoDot(s: string)
    requires AllDigits(s)
    ensures '.' !in s
  {
    forall i | 0 <= i < |s| ensures s[i] != '.' {
      assert IsDigit(s[i]);
    }
  }

  /** A whole-second timestamp written in decimal reads back as that many seconds. */
  lemma ParseWholeSeconds(n: nat)
    ensures ParseMicros(Decimal(n)) == Some(n * MicrosPerSecond)
  {
    var d := Decimal(n);
    DigitsHaveNoDot(d);
    SplitWithoutSeparator(d, '.');
    ParseDecimal(n);
    assert Split(d, '.') == [d];
    assert AllDigits("") && ParseDigits("") == 0;
    assert ParseMicros(d) == Some(ParseDigits(d) * MicrosPerSecond + 0 * Pow10(6));
  }

  /** The outcome of one update record. */
  datatype RecordOutcome =
    | Continue(rib: CollectorRib, events: seq<Event>)  // go on with the next record
    | Stopped                                          // later than ts_end + 1 s: stop this file
    | Crashed(error: PyError)                          // an exception leaves the loop

  /** Withdraw the stored entry of (peer, prefix), reporting the stored path first; an
      absent peer or prefix changes nothing (rib_table.py:303-311, 326-333, 356-363). */
  function WithdrawEntry(rib: CollectorRib, rc: string, peerIp: string, pfx: string): RecordOutcome {
    if peerIp in rib && pfx in rib[peerIp] then
      Continue(rib[peerIp := rib[peerIp] - {pfx}], WithdrawEvents(rc, peerIp, pfx, rib[peerIp][pfx]))
    else Continue(rib, [])
  }

  /** An announcement for a peer with a table: an unparseable or invalid path withdraws the
      entry; a valid one is reported with the entry it replaces and then stored. An unknown
      peer changes nothing (rib_table.py:319-366). */
  function AnnounceEntry(rib: CollectorRib, rc: string, peerIp: string, pfx: string, asPath: string,
                         peerAsn: int): RecordOutcome {
    if peerIp !in rib then Continue(rib, [])
    else match ParsePath(asPath)
      case None => WithdrawEntry(rib, rc, peerIp, pfx)
      case Some(path) =>
        if IsValidPath(path, peerAsn) then
          var oldPath := if pfx in rib[peerIp] then Some(rib[peerIp][pfx]) else None;
          Continue(rib[peerIp := rib[peerIp][pfx := path]], AnnounceEvents(rc, peerIp, pfx, path, oldPath))
        else WithdrawEntry(rib, rc, peerIp, pfx)
  }

  /** One record of an update file applied to collector `rc`'s table. */
  function UpdateRecord(fields: seq<string>, rib: CollectorRib, rc: string, cfg: Config): RecordOutcome {
    if |fields| < 2 then Crashed(IndexError)
    else match ParseMicros(fields[1])
      case None => Crashed(ValueError)
      case Some(t) =>
        if t < cfg.tsStart * MicrosPerSecond then Continue(rib, [])
        else if t > (cfg.tsEnd + 1) * MicrosPerSecond then Stopped
        else if |fields| < 6 then Crashed(IndexError)
        else
          var updateType, peerIp, pfx := fields[2], fields[3], fields[5];
          if !PassesFilter(cfg.peerIpFilter, peerIp) then Continue(rib, [])
          else if |fields| == 6 && updateType == "W" then WithdrawEntry(rib, rc, peerIp, pfx)
          else if |fields| == 15 && updateType == "A" then
            match ParseInt(fields[4])
            case None => Crashed(ValueError)
            case Some(asn) => AnnounceEntry(rib, rc, peerIp, pfx, fields[6], asn)
          else Continue(rib, [])
  }

  /** A record inside the time window, from a peer the filter lets through. */
  predicate InWindow(fields: seq<string>, cfg: Config) {
    && |fields| >= 6
    && ParseMicros(fields[1]).Some?
    && cfg.tsStart * MicrosPerSecond <= ParseMicros(fields[1]).value <= (cfg.tsEnd + 1) * MicrosPerSecond
    && PassesFilter(cfg.peerIpFilter, fields[3])
  }

  predicate IsWithdrawal(fields: seq<string>) {
    |fields| == 6 && fields[2] == "W"
  }

  predicate IsAnnouncement(fields: seq<string>) {
    |fields| == 15 && fields[2] == "A"
  }

  /** A withdrawal of a stored entry reports the stored path and then removes the entry;
      of an absent entry, it changes nothing and reports nothing. */
  lemma WithdrawalRecord(fields: seq<string>, rib: CollectorRib, rc: string, cfg: Config)
    requires InWindow(fields, cfg) && IsWithdrawal(fields)
    ensures var peerIp, pfx := fields[3], fields[5];
            UpdateRecord(fields, rib, rc, cfg) ==
              if peerIp in rib && pfx in rib[peerIp] then
                Continue(rib[peerIp := rib[peerIp] - {pfx}], WithdrawEvents(rc, peerIp, pfx, rib[peerIp][pfx]))
              else Continue(rib, [])
  {
  }

  /** A valid announcement for a known peer reports the new path and the entry it replaces
      (None if there was none), then stores the new path; no other entry changes. */
  lemma ValidAnnouncementRecord(fields: seq<string>, rib: CollectorRib, rc: string, cfg: Config, path: Path)
    requires InWindow(fields, cfg) && IsAnnouncement(fields)
    requires fields[3] in rib && ParseInt(fields[4]).Some?
    requires ParsePath(fields[6]) == Some(path) && IsValidPath(path, ParseInt(fields[4]).value)
    ensures var peerIp, pfx := fields[3], fields[5];
            var out := UpdateRecord(fields, rib, rc, cfg);
            && out.Continue?
            && out.events == AnnounceEvents(rc, peerIp, pfx, path, if pfx in rib[peerIp] then Some(rib[peerIp][pfx]) else None)
            && out.rib.Keys == rib.Keys
            && out.rib[peerIp] == rib[peerIp][pfx := path]
            && forall q | q in rib && q != peerIp :: out.rib[q] == rib[q]
  {
  }

  /** An announcement for a known peer whose path does not parse (an AS_SET, say) or is not
      valid acts as a withdrawal of the entry. */
  lemma InvalidAnnouncementRecord(fields: seq<string>, rib: CollectorRib, rc: string, cfg: Config)
    requires InWindow(fields, cfg) && IsAnnouncement(fields)
    requires fields[3] in rib && ParseInt(fields[4]).Some?
    requires ParsePath(fields[6]).None? || !IsValidPath(ParsePath(fields[6]).value, ParseInt(fields[4]).value)
    ensures UpdateRecord(fields, rib, rc, cfg) == WithdrawEntry(rib, rc, fields[3], fields[5])
  {
  }

  /** Records that change nothing: announcements from a peer the collector's table does not
      know, records of any other shape or type, records earlier than ts_start and records
      from peers outside a non-empty filter. */
  lemma IgnoredRecords(fields: seq<string>, rib: CollectorRib, rc: string, cfg: Config)
    requires |fields| >= 6 && ParseMicros(fields[1]).Some?
    requires ParseMicros(fields[1]).value < cfg.tsStart * MicrosPerSecond
             || (InWindow(fields, cfg) && IsAnnouncement(fields) && fields[3] !in rib && ParseInt(fields[4]).Some?)
             || (InWindow(fields, cfg) && !IsAnnouncement(fields) && !IsWithdrawal(fields))
             || (ParseMicros(fields[1]).value <= (cfg.tsEnd + 1) * MicrosPerSecond && !PassesFilter(cfg.peerIpFilter, fields[3]))
    ensures UpdateRecord(fields, rib, rc, cfg) == Continue(rib, [])
  {
  }

  /** A record later than ts_end + 1 s stops the file; an announcement with a malformed
      peer ASN aborts the update even for an unknown peer. */
  lemma StoppingRecords(fields: seq<string>, rib: CollectorRib, rc: string, cfg: Config)
    requires |fields| >= 2 && ParseMicros(fields[1]).Some?
    ensures ParseMicros(fields[1]).value > (cfg.tsEnd + 1) * MicrosPerSecond
            && ParseMicros(fields[1]).value >= cfg.tsStart * MicrosPerSecond
            ==> UpdateRecord(fields, rib, rc, cfg) == Stopped
    ensures InWindow(fields, cfg) && IsAnnouncement(fields) && ParseInt(fields[4]).None?
            ==> UpdateRecord(fields, rib, rc, cfg) == Crashed(ValueError)
  {
  }

  datatype FileStatus = Finished | FileStopped | FileCrashed(error: PyError)

  /** The table after the records processed so far, the hook calls made, and how the loop
      ended. */
  datatype FileRun = FileRun(rib: CollectorRib, events: seq<Event>, status: FileStatus)

  /** The record loop of `_update_rib_from_url` over the first `|records|` records. A stop
      abandons the rest of the file; a crash leaves the changes already made in place. */
  function UpdateFile(records: seq<seq<string>>, rib0: CollectorRib, rc: string, cfg: Config): FileRun
    decreases |records|
  {
    if |records| == 0 then FileRun(rib0, [], Finished)
    else
      var prev := UpdateFile(records[..|records| - 1], rib0, rc, cfg);
      if !prev.status.Finished? then prev
      else match UpdateRecord(records[|records| - 1], prev.rib, rc, cfg)
        case Continue(rib, evs) => FileRun(rib, prev.events + evs, Finished)
        case Stopped => prev.(status := FileStopped)
        case Crashed(e) => prev.(status := FileCrashed(e))
  }

  /** After a stop or a crash, the remaining records of the file are never read. */
  lemma {:induction false} UpdateAbandonsRest(records: seq<seq<string>>, rib0: CollectorRib, rc: string,
                                              cfg: Config, k: int)
    requires 0 <= k <= |records|
    requires !UpdateFile(records[..k], rib0, rc, cfg).status.Finished?
    ensures UpdateFile(records, rib0, rc, cfg) == UpdateFile(records[..k], rib0, rc, cfg)
    decreases |records|
  {
    if k < |records| {
      assert records[..|records| - 1][..k] == records[..k];
      UpdateAbandonsRest(records[..|records| - 1], rib0, rc, cfg, k);
    } else {
      assert records[..k] == records;
    }
  }

  /** Every stored path has more than one AS. */
  predicate PathsValid(rib: CollectorRib) {
    forall peerIp, pfx | peerIp in rib && pfx in rib[peerIp] :: |rib[peerIp][pfx]| > 1
  }

  /** A record outcome that keeps the peers of `rib` and the invariant. */
  predicate KeepsShape(out: RecordOutcome, rib: CollectorRib) {
    out.Continue? ==> out.rib.Keys == rib.Keys && PathsValid(out.rib)
  }

  lemma WithdrawKeepsShape(rib: CollectorRib, rc: string, peerIp: string, pfx: string)
    requires PathsValid(rib)
    ensures KeepsShape(WithdrawEntry(rib, rc, peerIp, pfx), rib)
  {
  }

  lemma AnnounceKeepsShape(rib: CollectorRib, rc: string, peerIp: string, pfx: string, asPath: string, peerAsn: int)
    requires PathsValid(rib)
    ensures KeepsShape(AnnounceEntry(rib, rc, peerIp, pfx, asPath, peerAsn), rib)
  {
    WithdrawKeepsShape(rib, rc, peerIp, pfx);
  }

  lemma RecordKeepsShape(fields: seq<string>, rib: CollectorRib, rc: string, cfg: Config)
    requires PathsValid(rib)
    ensures KeepsShape(UpdateRecord(fields, rib, rc, cfg), rib)
  {
    if |fields| >= 6 {
      var peerIp, pfx := fields[3], fields[5];
      WithdrawKeepsShape(rib, rc, peerIp, pfx);
      if |fields| == 15 && ParseInt(fields[4]).Some? {
        AnnounceKeepsShape(rib, rc, peerIp, pfx, fields[6], ParseInt(fields[4]).value);
      }
    }
  }

  /** Updates never add a peer to a collector's table (a peer first seen in an update is
      ignored) and keep every stored path valid. */
  lemma {:induction false} UpdateKeepsShape(records: seq<seq<string>>, rib0: CollectorRib, rc: string, cfg: Config)
    requires PathsValid(rib0)
    ensures UpdateFile(records, rib0, rc, cfg).rib.Keys == rib0.Keys
    ensures PathsValid(UpdateFile(records, rib0, rc, cfg).rib)
    decreases |records|
  {
    if |records| > 0 {
      var prev := UpdateFile(records[..|records| - 1], rib0, rc, cfg);
      UpdateKeepsShape(records[..|records| - 1], rib0, rc, cfg);
      RecordKeepsShape(records[|records| - 1], prev.rib, rc, cfg);
    }
  }

  /** A built table satisfies the same invariant. */
  lemma {:induction false} BuildPathsValid(lines: seq<seq<string>>, rc: string, filter: seq<string>)
    ensures PathsValid(BuildFile(lines, rc, filter).rib)
    decreases |lines|
  {
    if |lines| > 0 {
      BuildPathsValid(lines[..|lines| - 1], rc, filter);
    }
  }

  /** Every stored path starts with the peer ASN of a line for that peer and prefix. */
  lemma BuildStartsWithPeerAsn(lines: seq<seq<string>>, rc: string, filter: seq<string>,
                               peerIp: string, pfx: string)
    requires peerIp in BuildFile(lines, rc, filter).rib && pfx in BuildFile(lines, rc, filter).rib[peerIp]
    ensures exists i :: 0 <= i < |lines| && |lines[i]| >= 7 && lines[i][3] == peerIp && lines[i][5] == pfx
                        && ParseInt(lines[i][4]).Some?
                        && IsValidPath(BuildFile(lines, rc, filter).rib[peerIp][pfx], ParseInt(lines[i][4]).value)
  {
    BuildProvenance(lines, rc, filter, peerIp, pfx);
    var i :| 0 <= i < |lines| &&
             StoredAt(lines, filter, i, Entry(peerIp, pfx, BuildFile(lines, rc, filter).rib[peerIp][pfx]));
    assert |lines[i]| >= 7 && lines[i][3] == peerIp && lines[i][5] == pfx;
  }

  // ---- dict_diff ----

  datatype Diff<K, V> = Diff(added: map<K, V>, removed: map<K, V>, modified: map<K, (V, V)>)

  /** `dict_diff(dict1, dict2)`: entries only in the second, entries only in the first, and
      shared keys whose values differ with both values. */
  function DictDiff<K, V(==)>(d1: map<K, V>, d2: map<K, V>): (r: Diff<K, V>)
    ensures r.added.Keys == d2.Keys - d1.Keys && forall k | k in r.added :: r.added[k] == d2[k]
    ensures r.removed.Keys == d1.Keys - d2.Keys && forall k | k in r.removed :: r.removed[k] == d1[k]
    ensures r.modified.Keys <= d1.Keys * d2.Keys
    ensures forall k | k in d1 && k in d2 :: k in r.modified <==> d1[k] != d2[k]
    ensures forall k | k in r.modified :: r.modified[k] == (d1[k], d2[k])
  {
    Diff(
      map k | k in d2.Keys - d1.Keys :: d2[k],
      map k | k in d1.Keys - d2.Keys :: d1[k],
      map k | k in d1.Keys * d2.Keys && d1[k] != d2[k] :: (d1[k], d2[k]))
  }

  /** The three key sets are pairwise disjoint and together cover every key on which the
      two maps disagree. */
  lemma DictDiffPartition<K, V>(d1: map<K, V>, d2: map<K, V>)
    ensures var r := DictDiff(d1, d2);
            && r.added.Keys !! r.removed.Keys
            && r.added.Keys !! r.modified.Keys
            && r.removed.Keys !! r.modified.Keys
            && forall k :: (k in d1) != (k in d2) || (k in d1 && k in d2 && d1[k] != d2[k])
                 <==> k in r.added || k in r.removed || k in r.modified
  {
  }

  /** The diff is empty exactly when the two maps are equal. */
  lemma DictDiffEmptyIff<K, V>(d1: map<K, V>, d2: map<K, V>)
    ensures var r := DictDiff(d1, d2);
            r.added == map[] && r.removed == map[] && r.modified == map[] <==> d1 == d2
  {
    var r := DictDiff(d1, d2);
    if r.added == map[] && r.removed == map[] && r.modified == map[] {
      assert d1.Keys == d2.Keys by {
        forall k | k in d1 ensures k in d2 { assert k !in r.removed; }
        forall k | k in d2 ensures k in d1 { assert k !in r.added; }
      }
      forall k | k in d1 ensures d1[k] == d2[k] { assert k !in r.modified; }
    }
  }

  /** Diffing the other way round swaps added and removed and the pairs of modified. */
  lemma DictDiffSwap<K, V>(d1: map<K, V>, d2: map<K, V>)
    ensures DictDiff(d2, d1).added == DictDiff(d1, d2).removed
    ensures DictDiff(d2, d1).removed == DictDiff(d1, d2).added
    ensures DictDiff(d2, d1).modified.Keys == DictDiff(d1, d2).modified.Keys
    ensures forall k | k in DictDiff(d1, d2).modified ::
              DictDiff(d2, d1).modified[k] == (DictDiff(d1, d2).modified[k].1, DictDiff(d1, d2).modified[k].0)
  {
  }
}
