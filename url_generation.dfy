/** Archive URLs of the RouteViews (RV) and RIPE RIS projects (url_generation.py): building
    the URL of a RIB or update file of a collector at a time, turning a URL back into a local
    filename, and recovering the collector from that filename. */
module Urls {
  import opened Common
  import opened Strings
  import opened AsPath

  /** Update-file resolutions in seconds: 15 minutes for RouteViews, 5 for RIS. */
  const RvUpdateRes: nat := 900
  const RisUpdateRes: nat := 300

  /** The calendar fields of a `datetime` that appear in archive names. */
  datatype Moment = Moment(year: nat, month: nat, day: nat, hour: nat, minute: nat)

  function Zeros(k: nat): (s: string)
    ensures |s| == k && AllDigits(s)
  {
    if k == 0 then "" else "0" + Zeros(k - 1)
  }

  /** `n` in decimal, left-padded with zeros to `width` digits (`%Y`, `%m`, ...). */
  function Padded(n: nat, width: nat): (s: string)
    ensures |s| >= 1 && AllDigits(s)
  {
    var d := Decimal(n);
    if |d| >= width then d else Zeros(width - |d|) + d
  }

  /** `ts.strftime("%Y.%m")`. */
  function MonthText(ts: Moment): string {
    Padded(ts.year, 4) + "." + Padded(ts.month, 2)
  }

  function DateText(ts: Moment): (s: string)
    ensures |s| >= 1 && AllDigits(s)
  {
    Padded(ts.year, 4) + Padded(ts.month, 2) + Padded(ts.day, 2)
  }

  function TimeText(ts: Moment): (s: string)
    ensures |s| >= 1 && AllDigits(s)
  {
    Padded(ts.hour, 2) + Padded(ts.minute, 2)
  }

  /** `ts.strftime("%Y%m%d.%H%M")`. */
  function StampText(ts: Moment): string {
    DateText(ts) + "." + TimeText(ts)
  }

  /** A digit string holds no character other than a digit. */
  lemma DigitsLack(s: string, ch: char)
    requires AllDigits(s) && !IsDigit(ch)
    ensures ch !in s
  {
    forall i | 0 <= i < |s| ensures s[i] != ch {
      assert IsDigit(s[i]);
    }
  }

  // ---------------------------------------------------------------- os.path

  /** One step of `posixpath.join`: an absolute component restarts the path; otherwise a
      '/' is inserted unless the path is empty or already ends with one. */
  function JoinStep(path: string, b: string): string {
    if StartsWith(b, "/") then b
    else if path == "" || path[|path| - 1] == '/' then path + b
    else path + "/" + b
  }

  /** `os.path.join(a, *p)` on POSIX. */
  function PathJoin(a: string, p: seq<string>): string
    decreases |p|
  {
    if |p| == 0 then a else PathJoin(JoinStep(a, p[0]), p[1..])
  }

  /** Components that are non-empty and hold no '/'. */
  predicate PlainComponents(p: seq<string>) {
    forall i :: 0 <= i < |p| ==> |p[i]| > 0 && '/' !in p[i]
  }

  /** After a path that does not end with '/', each plain component is added behind one
      '/'. */
  lemma {:induction false} PathJoinAfterName(q: string, p: seq<string>)
    requires |q| > 0 && q[|q| - 1] != '/'
    requires PlainComponents(p) && |p| >= 1
    ensures PathJoin(q, p) == q + "/" + Join(p, '/')
    decreases |p|
  {
    assert !StartsWith(p[0], "/") by {
      assert p[0][0] in p[0];
    }
    var q' := q + "/" + p[0];
    assert JoinStep(q, p[0]) == q';
    if |p| == 1 {
      assert PathJoin(q', p[1..]) == q';
    } else {
      assert q'[|q'| - 1] == p[0][|p[0]| - 1];
      assert p[0][|p[0]| - 1] in p[0];
      PathJoinAfterName(q', p[1..]);
      assert Join(p, '/') == p[0] + "/" + Join(p[1..], '/');
    }
  }

  /** Joining plain components under a base that ends with '/' is plain concatenation:
      `os.path.join("https://h/", a, b) == "https://h/a/b"`. */
  lemma {:induction false} PathJoinUnderBase(base: string, p: seq<string>)
    requires |base| > 0 && base[|base| - 1] == '/'
    requires PlainComponents(p) && |p| >= 1
    ensures PathJoin(base, p) == base + Join(p, '/')
  {
    assert !StartsWith(p[0], "/") by {
      assert p[0][0] in p[0];
    }
    var q := base + p[0];
    assert JoinStep(base, p[0]) == q;
    if |p| == 1 {
      assert PathJoin(q, p[1..]) == q;
    } else {
      assert q[|q| - 1] == p[0][|p[0]| - 1];
      assert p[0][|p[0]| - 1] in p[0];
      PathJoinAfterName(q, p[1..]);
      assert Join(p, '/') == p[0] + "/" + Join(p[1..], '/');
    }
  }

  predicate AllDots(s: string) {
    forall i :: 0 <= i < |s| ==> s[i] == '.'
  }

  /** `os.path.splitext(p)[1]`: from the last '.' of the last component, unless that
      component is only dots up to it. */
  function SplitExt(p: string): (ext: string)
    ensures ext == "" || (|ext| >= 1 && ext[0] == '.' && '/' !in ext)
  {
    var sep := RFind(p, '/');
    var dot := RFind(p, '.');
    if dot > sep && !AllDots(p[sep + 1..dot]) then
      assert forall i :: dot <= i < |p| ==> p[i] in p[sep + 1..];
      p[dot..]
    else ""
  }

  // ---------------------------------------------------------------- URLs

  const RisHost: string := "data.ris.ripe.net"
  const RvHost: string := "routeviews.org"
  /** "https://data.ris.ripe.net/" and "https://routeviews.org/". */
  const RisBase: string := "https://" + RisHost + "/"
  const RvBase: string := "https://" + RvHost + "/"

  /** `RIS_url`: "rib" files are `bview`s, "update" files `updates`; any other type leaves
      the local `bgptype_in_url` unassigned. */
  function RisUrl(rc: string, ts: Moment, bgptype: string): (r: Result<string>)
    ensures r.Err? <==> bgptype != "rib" && bgptype != "update"
    ensures r.Err? ==> r.error == UnboundLocalError
  {
    if bgptype != "rib" && bgptype != "update" then Err(UnboundLocalError)
    else
      var kind := if bgptype == "rib" then "bview" else "updates";
      Ok(PathJoin(RisBase, [rc, MonthText(ts), kind + "." + StampText(ts) + ".gz"]))
  }

  /** `RV_url`: RIB files sit under `RIBS` as `rib.*`, update files under `UPDATES` as
      `updates.*`; `route-views2` has no collector directory. */
  function RvUrl(rc: string, ts: Moment, bgptype: string): (r: Result<string>)
    ensures r.Err? <==> bgptype != "rib" && bgptype != "update"
    ensures r.Err? ==> r.error == UnboundLocalError
  {
    if bgptype != "rib" && bgptype != "update" then Err(UnboundLocalError)
    else
      var dir := if bgptype == "rib" then "RIBS" else "UPDATES";
      var name := (if bgptype == "rib" then "rib" else "updates") + "." + StampText(ts) + ".bz2";
      if rc != "route-views2" then Ok(PathJoin(RvBase, [rc, "bgpdata", MonthText(ts), dir, name]))
      else Ok(PathJoin(RvBase, ["bgpdata", MonthText(ts), dir, name]))
  }

  /** `get_url`: collectors named `rrc*` are RIS, others containing "route-views" are RV,
      anything else is refused. */
  function GetUrl(rc: string, ts: Moment, bgptype: string): (r: Result<string>)
    ensures !StartsWith(rc, "rrc") && !Contains(rc, "route-views") ==> r == Err(ValueError)
    ensures StartsWith(rc, "rrc") || Contains(rc, "route-views") ==>
              (r.Ok? <==> bgptype == "rib" || bgptype == "update")
  {
    if StartsWith(rc, "rrc") then RisUrl(rc, ts, bgptype)
    else if Contains(rc, "route-views") then RvUrl(rc, ts, bgptype)
    else Err(ValueError)
  }

  /** The file type `url_to_filename` reads off an archive file name. */
  function TypeName(kind: string): string {
    if kind == "bview" then "rib" else if kind == "updates" then "update" else kind
  }

  /** The collector `url_to_filename` reads off a URL: `route-views2` for a routeviews.org
      URL without "route-views" in it, otherwise the fourth '/'-field of the stripped URL. */
  function UrlCollector(url: string): (r: Result<string>)
    ensures r.Err? ==> r.error == IndexError
  {
    if Contains(url, RvHost) && !Contains(url, "route-views") then Ok("route-views2")
    else
      var parts := Split(Strip(url), '/');
      if |parts| < 4 then Err(IndexError) else Ok(parts[3])
  }

  /** `url_to_filename`: `<rc>.<type>.<YYYYMMDD.HHMM><ext>`, the type `bview` renamed `rib`
      and `updates` renamed `update`. */
  function UrlToFilename(url: string): (r: Result<string>)
    ensures r.Err? <==> UrlCollector(url).Err?
  {
    match UrlCollector(url)
    case Err(e) => Err(e)
    case Ok(rc) =>
      var segments := Split(url, '/');
      var fields := Split(segments[|segments| - 1], '.');
      var timeStr := Join(fields[1..if |fields| < 3 then |fields| else 3], '.');
      Ok(rc + "." + TypeName(fields[0]) + "." + timeStr + SplitExt(url))
  }

  /** `filename_to_rc`: the first '.'-field, joined with the second when the first is
      exactly "route-views". */
  function FilenameToRc(filename: string): (r: Result<string>)
    ensures r.Err? <==> Split(filename, '.')[0] == "route-views" && |Split(filename, '.')| < 2
  {
    var res := Split(filename, '.');
    if res[0] == "route-views" then
      if |res| < 2 then Err(IndexError) else Ok(res[0] + "." + res[1])
    else Ok(res[0])
  }

  // ---------------------------------------------------------------- round trip

  lemma {:induction false} JoinSnoc(p: seq<string>, x: string, c: char)
    requires |p| >= 1
    ensures Join(p + [x], c) == Join(p, c) + [c] + x
    decreases |p|
  {
    if |p| == 1 {
      assert (p + [x])[1..] == [x];
    } else {
      assert (p + [x])[1..] == p[1..] + [x];
      JoinSnoc(p[1..], x, c);
    }
  }

  /** `rfind` finds the separator placed after `a` when none follows it. */
  lemma {:induction false} RFindAfter(a: string, b: string, c: char)
    requires c !in b
    ensures RFind(a + [c] + b, c) == |a|
    decreases |b|
  {
    var s := a + [c] + b;
    if |b| > 0 {
      assert s[|s| - 1] == b[|b| - 1];
      assert b[|b| - 1] in b;
      assert s[..|s| - 1] == a + [c] + b[..|b| - 1];
      assert forall ch | ch in b[..|b| - 1] :: ch in b;
      RFindAfter(a, b[..|b| - 1], c);
    } else {
      assert s == a + [c];
    }
  }

  /** The extension of `dir/stem.ext` is `.ext` when the stem does not start with a dot. */
  lemma SplitExtOf(dir: string, stem: string, ext: string)
    requires '/' !in stem && '/' !in ext && '.' !in ext
    requires |stem| > 0 && stem[0] != '.'
    ensures SplitExt(dir + "/" + (stem + "." + ext)) == "." + ext
  {
    var s := dir + "/" + (stem + "." + ext);
    var dot := |dir| + 1 + |stem|;
    LastDotOf(dir, stem, ext);
    LastSlashOf(dir, stem, ext);
    SplitExtAt(s, |dir|, dot);
  }

  lemma LastDotOf(dir: string, stem: string, ext: string)
    requires '.' !in ext
    ensures var s := dir + "/" + (stem + "." + ext);
      RFind(s, '.') == |dir| + 1 + |stem| && s[|dir| + 1 + |stem|..] == "." + ext
  {
    var front := dir + "/" + stem;
    assert dir + "/" + (stem + "." + ext) == front + ['.'] + ext;
    RFindAfter(front, ext, '.');
  }

  lemma LastSlashOf(dir: string, stem: string, ext: string)
    requires '/' !in stem && '/' !in ext && |stem| > 0
    ensures var s := dir + "/" + (stem + "." + ext);
      RFind(s, '/') == |dir| && s[|dir| + 1] == stem[0]
  {
    var tail := stem + "." + ext;
    assert '/' !in tail;
    assert dir + "/" + tail == dir + ['/'] + tail;
    RFindAfter(dir, tail, '/');
  }

  /** With the last '/' at `sep` and the last '.' at a later `dot` right of a non-dot,
      the extension runs from `dot`. */
  lemma SplitExtAt(p: string, sep: int, dot: int)
    requires RFind(p, '/') == sep && RFind(p, '.') == dot && sep + 1 < dot
    requires p[sep + 1] != '.'
    ensures SplitExt(p) == p[dot..]
  {
    assert p[sep + 1..dot][0] == p[sep + 1];
  }

  lemma StripUnpadded(s: string)
    requires |s| > 0 && !IsSpace(s[0]) && !IsSpace(s[|s| - 1])
    ensures Strip(s) == s
  {
  }

  /** An archive file name: type, date, time and compression, '.'-separated. */
  function ArchiveName(kind: string, ts: Moment, ext: string): string {
    kind + "." + StampText(ts) + "." + ext
  }

  /** A word of an archive name: non-empty, without '.' or '/'. */
  predicate Word(w: string) {
    |w| > 0 && '.' !in w && '/' !in w
  }

  lemma ArchiveNameFields(kind: string, ts: Moment, ext: string)
    requires Word(kind) && Word(ext)
    ensures Split(ArchiveName(kind, ts, ext), '.') == [kind, DateText(ts), TimeText(ts), ext]
    ensures '/' !in ArchiveName(kind, ts, ext)
    ensures Join(Split(ArchiveName(kind, ts, ext), '.')[1..3], '.') == StampText(ts)
    ensures ArchiveName(kind, ts, ext)[|ArchiveName(kind, ts, ext)| - 1] == ext[|ext| - 1]
  {
    var d, t := DateText(ts), TimeText(ts);
    DigitsLack(d, '.');
    DigitsLack(t, '.');
    DigitsLack(d, '/');
    DigitsLack(t, '/');
    assert ArchiveName(kind, ts, ext) == kind + ['.'] + (d + ['.'] + (t + ['.'] + ext));
    SplitAfterField(kind, d + ['.'] + (t + ['.'] + ext), '.');
    SplitAfterField(d, t + ['.'] + ext, '.');
    SplitAfterField(t, ext, '.');
    SplitWithoutSeparator(ext, '.');
    assert Split(ArchiveName(kind, ts, ext), '.')[1..3] == [d, t];
  }

  /** The '/'-fields of a URL built from fields, and its unchanged `strip()`. */
  lemma UrlOfFields(pre: seq<string>, name: string)
    requires |pre| >= 1 && NoneContains(pre, '/') && |pre[0]| > 0 && !IsSpace(pre[0][0])
    requires |name| > 0 && '/' !in name && !IsSpace(name[|name| - 1])
    ensures Split(Join(pre + [name], '/'), '/') == pre + [name]
    ensures Strip(Join(pre + [name], '/')) == Join(pre + [name], '/')
    ensures Join(pre + [name], '/') == Join(pre, '/') + "/" + name
  {
    var url := Join(pre + [name], '/');
    assert NoneContains(pre + [name], '/');
    SplitJoin(pre + [name], '/');
    JoinSnoc(pre, name, '/');
    assert url[|url| - 1] == name[|name| - 1];
    assert url[0] == pre[0][0] by {
      if |pre| > 1 {
        assert Join(pre, '/') == pre[0] + "/" + Join(pre[1..], '/');
      }
    }
    StripUnpadded(url);
  }

  lemma DotFields(a: string, b: string, c: string, d: string)
    ensures a + "." + b + "." + c + "." + d == a + "." + (b + "." + c + "." + d)
  {
  }

  lemma StringAssoc(a: string, b: string, c: string)
    ensures a + (b + c) == a + b + c
  {
  }

  /** `url_to_filename` on an archive URL given as its '/'-fields, whose collector is `rc`
      (either the fourth field or, by the routeviews.org rule, `route-views2`). */
  lemma UrlToFilenameOfFields(pre: seq<string>, kind: string, ts: Moment, ext: string, rc: string)
    requires |pre| >= 1 && NoneContains(pre, '/') && |pre[0]| > 0 && !IsSpace(pre[0][0])
    requires Word(kind) && kind[0] != '.' && Word(ext) && !IsSpace(ext[|ext| - 1])
    requires UrlCollector(Join(pre + [ArchiveName(kind, ts, ext)], '/')) == Ok(rc)
    ensures UrlToFilename(Join(pre + [ArchiveName(kind, ts, ext)], '/'))
            == Ok(rc + "." + TypeName(kind) + "." + StampText(ts) + "." + ext)
  {
    var name := ArchiveName(kind, ts, ext);
    ArchiveNameFields(kind, ts, ext);
    UrlOfFields(pre, name);
    SplitExtOf(Join(pre, '/'), kind + "." + StampText(ts), ext);
    StringAssoc(rc + "." + TypeName(kind) + "." + StampText(ts), ".", ext);
  }

  // ---------------------------------------------------------------- URLs as fields

  lemma JoinCons(a: string, rest: seq<string>, c: char)
    requires |rest| >= 1
    ensures Join([a] + rest, c) == a + [c] + Join(rest, c)
  {
    assert ([a] + rest)[1..] == rest;
  }

  /** `https://<host>/` followed by '/'-joined fields is the join of `https:`, an empty
      field, the host and those fields. */
  lemma UnderHost(host: string, q: seq<string>)
    requires |q| >= 1
    ensures "https://" + host + "/" + Join(q, '/') == Join(["https:", "", host] + q, '/')
  {
    JoinCons3("https:", "", host, q, '/');
    HostPrefix(host, Join(q, '/'));
  }

  lemma JoinCons3(a: string, b: string, c: string, q: seq<string>, sep: char)
    requires |q| >= 1
    ensures Join([a, b, c] + q, sep) == a + [sep] + (b + [sep] + (c + [sep] + Join(q, sep)))
  {
    JoinCons(c, q, sep);
    JoinCons(b, [c] + q, sep);
    JoinCons(a, [b] + ([c] + q), sep);
    assert [a] + ([b] + ([c] + q)) == [a, b, c] + q;
  }

  lemma HostPrefix(host: string, j: string)
    ensures "https:" + "/" + ("" + "/" + (host + "/" + j)) == "https://" + host + "/" + j
  {
    var t := host + "/" + j;
    assert "" + "/" + t == "/" + t;
    assert "https:" + "/" + ("/" + t) == "https://" + t;
    StringAssoc("https://", host + "/", j);
    StringAssoc("https://", host, "/");
  }

  lemma MonthTextPlain(ts: Moment)
    ensures |MonthText(ts)| > 0 && '/' !in MonthText(ts) && '-' !in MonthText(ts)
    ensures 'r' !in MonthText(ts)
  {
    var y, m := Padded(ts.year, 4), Padded(ts.month, 2);
    DigitsLack(y, '/');
    DigitsLack(m, '/');
    DigitsLack(y, '-');
    DigitsLack(m, '-');
    DigitsLack(y, 'r');
    DigitsLack(m, 'r');
  }

  lemma StampTextPlain(ts: Moment)
    ensures '-' !in StampText(ts) && 'r' !in StampText(ts)
  {
    var d, t := DateText(ts), TimeText(ts);
    DigitsLack(d, '-');
    DigitsLack(t, '-');
    DigitsLack(d, 'r');
    DigitsLack(t, 'r');
  }

  /** The archive file name in a RIS URL. */
  function RisKind(bgptype: string): string {
    if bgptype == "rib" then "bview" else "updates"
  }

  /** The '/'-fields of a RIS archive URL, ahead of the file name. */
  function RisFields(rc: string, ts: Moment): seq<string> {
    ["https:", "", RisHost, rc, MonthText(ts)]
  }

  lemma RisUrlFields(rc: string, ts: Moment, bgptype: string)
    requires bgptype == "rib" || bgptype == "update"
    requires |rc| > 0 && '/' !in rc
    ensures RisUrl(rc, ts, bgptype)
            == Ok(Join(RisFields(rc, ts) + [ArchiveName(RisKind(bgptype), ts, "gz")], '/'))
  {
    var kind, ym := RisKind(bgptype), MonthText(ts);
    var name := ArchiveName(kind, ts, "gz");
    MonthTextPlain(ts);
    NamePlain(kind, ts, "gz", '/');
    StringAssoc(kind + "." + StampText(ts), ".", "gz");
    assert kind + "." + StampText(ts) + ".gz" == name;
    JoinUnderHost(RisHost, [rc, ym], name);
    assert [rc, ym] + [name] == [rc, ym, name];
    assert ["https:", "", RisHost] + [rc, ym] == RisFields(rc, ts);
  }

  function RvKind(bgptype: string): string {
    if bgptype == "rib" then "rib" else "updates"
  }

  function RvDir(bgptype: string): string {
    if bgptype == "rib" then "RIBS" else "UPDATES"
  }

  /** The '/'-fields of a RouteViews archive URL, ahead of the file name. */
  function RvFields(rc: string, ts: Moment, bgptype: string): seq<string> {
    if rc != "route-views2" then ["https:", "", RvHost, rc, "bgpdata", MonthText(ts), RvDir(bgptype)]
    else ["https:", "", RvHost, "bgpdata", MonthText(ts), RvDir(bgptype)]
  }

  lemma RvFieldsPlain(rc: string, ts: Moment, bgptype: string)
    requires '/' !in rc
    ensures NoneContains(RvFields(rc, ts, bgptype), '/')
    ensures rc == "route-views2" ==> NoneContains(RvFields(rc, ts, bgptype), '-')
  {
    MonthTextPlain(ts);
    var ym, dir := MonthText(ts), RvDir(bgptype);
    assert '/' !in dir && '-' !in dir;
    if rc != "route-views2" {
      NoneContains7("https:", "", RvHost, rc, "bgpdata", ym, dir, '/');
    } else {
      NoneContains6("https:", "", RvHost, "bgpdata", ym, dir, '/');
      NoneContains6("https:", "", RvHost, "bgpdata", ym, dir, '-');
    }
  }

  lemma RisFieldsPlain(rc: string, ts: Moment)
    requires '/' !in rc
    ensures NoneContains(RisFields(rc, ts), '/')
  {
    MonthTextPlain(ts);
    NoneContains5("https:", "", RisHost, rc, MonthText(ts), '/');
  }

  lemma RvUrlFields(rc: string, ts: Moment, bgptype: string)
    requires bgptype == "rib" || bgptype == "update"
    requires |rc| > 0 && '/' !in rc
    ensures RvUrl(rc, ts, bgptype)
            == Ok(Join(RvFields(rc, ts, bgptype) + [ArchiveName(RvKind(bgptype), ts, "bz2")], '/'))
  {
    var kind, ym, dir := RvKind(bgptype), MonthText(ts), RvDir(bgptype);
    var name := ArchiveName(kind, ts, "bz2");
    RvNameParts(bgptype, ts);
    if rc != "route-views2" {
      assert RvUrl(rc, ts, bgptype) == Ok(PathJoin(RvBase, [rc, "bgpdata", ym, dir, name]));
      RvUnderHostWithDir(rc, ym, dir, name);
      assert RvFields(rc, ts, bgptype) == ["https:", "", RvHost, rc, "bgpdata", ym, dir];
    } else {
      assert RvUrl(rc, ts, bgptype) == Ok(PathJoin(RvBase, ["bgpdata", ym, dir, name]));
      RvUnderHostBare(ym, dir, name);
      assert RvFields(rc, ts, bgptype) == ["https:", "", RvHost, "bgpdata", ym, dir];
    }
  }

  /** The pieces of a RouteViews URL hold no '/', and its file name is the archive name. */
  lemma RvNameParts(bgptype: string, ts: Moment)
    ensures var name := ArchiveName(RvKind(bgptype), ts, "bz2");
      && (if bgptype == "rib" then "rib" else "updates") + "." + StampText(ts) + ".bz2" == name
      && |name| > 0 && '/' !in name
      && |MonthText(ts)| > 0 && '/' !in MonthText(ts) && '/' !in RvDir(bgptype)
  {
    var kind := RvKind(bgptype);
    MonthTextPlain(ts);
    NamePlain(kind, ts, "bz2", '/');
    StringAssoc(kind + "." + StampText(ts), ".", "bz2");
  }

  lemma RvUnderHostWithDir(rc: string, ym: string, dir: string, name: string)
    requires |rc| > 0 && |ym| > 0 && |dir| > 0 && |name| > 0
    requires '/' !in rc && '/' !in ym && '/' !in dir && '/' !in name
    ensures PathJoin(RvBase, [rc, "bgpdata", ym, dir, name])
            == Join(["https:", "", RvHost, rc, "bgpdata", ym, dir] + [name], '/')
  {
    var q := [rc, "bgpdata", ym, dir];
    assert q + [name] == [rc, "bgpdata", ym, dir, name];
    JoinUnderHost(RvHost, q, name);
    assert ["https:", "", RvHost] + q == ["https:", "", RvHost, rc, "bgpdata", ym, dir];
  }

  lemma RvUnderHostBare(ym: string, dir: string, name: string)
    requires |ym| > 0 && |dir| > 0 && |name| > 0
    requires '/' !in ym && '/' !in dir && '/' !in name
    ensures PathJoin(RvBase, ["bgpdata", ym, dir, name])
            == Join(["https:", "", RvHost, "bgpdata", ym, dir] + [name], '/')
  {
    var q := ["bgpdata", ym, dir];
    assert q + [name] == ["bgpdata", ym, dir, name];
    JoinUnderHost(RvHost, q, name);
    assert ["https:", "", RvHost] + q == ["https:", "", RvHost, "bgpdata", ym, dir];
  }

  /** `os.path.join("https://<host>/", *q)` for plain components is the '/'-join of
      `https:`, an empty field, the host and the components. */
  lemma JoinUnderHost(host: string, q: seq<string>, name: string)
    requires |q| >= 1 && PlainComponents(q) && |name| > 0 && '/' !in name
    ensures PathJoin("https://" + host + "/", q + [name]) == Join(["https:", "", host] + q + [name], '/')
  {
    var base := "https://" + host + "/";
    assert base[|base| - 1] == '/';
    assert PlainComponents(q + [name]) by {
      forall i | 0 <= i < |q + [name]| ensures |(q + [name])[i]| > 0 && '/' !in (q + [name])[i] {
        if i < |q| {
          assert (q + [name])[i] == q[i];
        }
      }
    }
    PathJoinUnderBase(base, q + [name]);
    UnderHost(host, q + [name]);
    assert ["https:", "", host] + q + [name] == ["https:", "", host] + (q + [name]);
  }

  /** The collector read off a RIS URL is the one it was built for, as long as that name
      holds no '.' (so the URL cannot contain "routeviews.org"). */
  lemma RisCollector(rc: string, ts: Moment, bgptype: string)
    requires |rc| > 0 && '/' !in rc && '.' !in rc
    ensures UrlCollector(Join(RisFields(rc, ts) + [ArchiveName(RisKind(bgptype), ts, "gz")], '/'))
            == Ok(rc)
  {
    var name := ArchiveName(RisKind(bgptype), ts, "gz");
    RisPartsPlain(rc, ts, bgptype);
    RisFieldsPlain(rc, ts);
    NamePlain(RisKind(bgptype), ts, "gz", '/');
    ArchiveNameLast(RisKind(bgptype), ts, "gz");
    CollectorWithoutHost(RisFields(rc, ts), name);
  }

  lemma RisPartsPlain(rc: string, ts: Moment, bgptype: string)
    requires |rc| > 0 && '/' !in rc && '.' !in rc
    ensures var parts := RisFields(rc, ts) + [ArchiveName(RisKind(bgptype), ts, "gz")];
      forall i :: 0 <= i < |parts| ==> !Contains(parts[i], RvHost)
  {
    var ym, name := MonthText(ts), ArchiveName(RisKind(bgptype), ts, "gz");
    var parts := RisFields(rc, ts) + [name];
    MonthTextPlain(ts);
    NamePlain(RisKind(bgptype), ts, "gz", 'r');
    RisHostLacksO();
    forall i | 0 <= i < |parts| ensures !Contains(parts[i], RvHost) {
      if i < 3 {
        LacksChar(parts[i], RvHost, 'o');
      } else if i == 3 {
        LacksChar(rc, RvHost, '.');
      } else if i == 4 {
        LacksChar(ym, RvHost, 'r');
      } else {
        LacksChar(name, RvHost, 'r');
      }
    }
  }

  /** The RIS host and the scheme hold no 'o', which "routeviews.org" has. */
  lemma RisHostLacksO()
    ensures 'o' !in RisHost && 'o' !in "https:" && 'o' !in ""
    ensures RvHost[1] == 'o' && RvHost[10] == '.' && RvHost[0] == 'r'
  {
    forall i | 0 <= i < |RisHost| ensures RisHost[i] != 'o' {
    }
  }

  /** A URL none of whose fields contains "routeviews.org" yields its fourth field. */
  lemma CollectorWithoutHost(pre: seq<string>, name: string)
    requires |pre| >= 4 && NoneContains(pre, '/') && |pre[0]| > 0 && !IsSpace(pre[0][0])
    requires |name| > 0 && '/' !in name && !IsSpace(name[|name| - 1])
    requires forall i :: 0 <= i < |pre + [name]| ==> !Contains((pre + [name])[i], RvHost)
    ensures UrlCollector(Join(pre + [name], '/')) == Ok(pre[3])
  {
    NoneContainsSnoc(pre, name, '/');
    if Contains(Join(pre + [name], '/'), RvHost) {
      ContainsInSomePart(pre + [name], RvHost, '/');
      assert false;
    }
    UrlOfFields(pre, name);
  }

  lemma ArchiveNameLast(kind: string, ts: Moment, ext: string)
    requires |ext| > 0
    ensures ArchiveName(kind, ts, ext)[|ArchiveName(kind, ts, ext)| - 1] == ext[|ext| - 1]
  {
  }

  /** A character that is no digit nor '.' and occurs in neither the type nor the
      extension does not occur in an archive name. */
  lemma NamePlain(kind: string, ts: Moment, ext: string, ch: char)
    requires ch !in kind && ch !in ext && ch != '.' && !IsDigit(ch)
    ensures ch !in ArchiveName(kind, ts, ext)
  {
    DigitsLack(DateText(ts), ch);
    DigitsLack(TimeText(ts), ch);
  }

  /** The collector read off a RouteViews URL is the one it was built for: the fourth field,
      or `route-views2` for the URL without a collector directory. */
  lemma RvCollector(rc: string, ts: Moment, bgptype: string)
    requires |rc| > 0 && '/' !in rc && Contains(rc, "route-views")
    ensures UrlCollector(Join(RvFields(rc, ts, bgptype) + [ArchiveName(RvKind(bgptype), ts, "bz2")], '/'))
            == Ok(rc)
  {
    if rc != "route-views2" {
      RvCollectorInPath(rc, ts, bgptype);
    } else {
      RvCollectorWithoutDirectory(ts, bgptype);
    }
  }

  lemma RvCollectorInPath(rc: string, ts: Moment, bgptype: string)
    requires |rc| > 0 && '/' !in rc && Contains(rc, "route-views") && rc != "route-views2"
    ensures UrlCollector(Join(RvFields(rc, ts, bgptype) + [ArchiveName(RvKind(bgptype), ts, "bz2")], '/'))
            == Ok(rc)
  {
    var name := ArchiveName(RvKind(bgptype), ts, "bz2");
    RvFieldsPlain(rc, ts, bgptype);
    NamePlain(RvKind(bgptype), ts, "bz2", '/');
    ArchiveNameLast(RvKind(bgptype), ts, "bz2");
    assert RvFields(rc, ts, bgptype)[3] == rc;
    CollectorInFourthField(RvFields(rc, ts, bgptype), name);
  }

  lemma RvCollectorWithoutDirectory(ts: Moment, bgptype: string)
    ensures UrlCollector(Join(RvFields("route-views2", ts, bgptype)
                              + [ArchiveName(RvKind(bgptype), ts, "bz2")], '/'))
            == Ok("route-views2")
  {
    var name := ArchiveName(RvKind(bgptype), ts, "bz2");
    var ym, dir := MonthText(ts), RvDir(bgptype);
    var parts := RvFields("route-views2", ts, bgptype) + [name];
    RvFieldsPlain("route-views2", ts, bgptype);
    NamePlain(RvKind(bgptype), ts, "bz2", '/');
    NamePlain(RvKind(bgptype), ts, "bz2", '-');
    NoneContainsSnoc(RvFields("route-views2", ts, bgptype), name, '/');
    NoneContainsSnoc(RvFields("route-views2", ts, bgptype), name, '-');
    assert parts[2] == RvHost;
    CollectorOfHostOnly(parts);
  }

  /** A URL whose fourth field names a RouteViews collector yields that field. */
  lemma CollectorInFourthField(pre: seq<string>, name: string)
    requires |pre| >= 4 && NoneContains(pre, '/') && |pre[0]| > 0 && !IsSpace(pre[0][0])
    requires |name| > 0 && '/' !in name && !IsSpace(name[|name| - 1])
    requires Contains(pre[3], "route-views")
    ensures UrlCollector(Join(pre + [name], '/')) == Ok(pre[3])
  {
    assert (pre + [name])[3] == pre[3];
    ContainsInJoin(pre + [name], 3, "route-views", '/');
    UrlOfFields(pre, name);
  }

  /** A URL with the RouteViews host as its third field and no '-' anywhere is read as
      `route-views2`. */
  lemma CollectorOfHostOnly(parts: seq<string>)
    requires |parts| >= 3 && parts[2] == RvHost
    requires NoneContains(parts, '/') && NoneContains(parts, '-')
    ensures UrlCollector(Join(parts, '/')) == Ok("route-views2")
  {
    ContainsSelf(RvHost);
    ContainsInJoin(parts, 2, RvHost, '/');
    NoPartContains(parts, "route-views", '/', '-');
  }

  // ---------------------------------------------------------------- collector round trip

  /** Collector names `filename_to_rc` reads back unchanged: a name without '.' other than
      the bare `route-views`, or `route-views.` followed by a name without '.'. */
  predicate DotFreeOrRouteViews(rc: string) {
    rc != "route-views" && ('.' !in rc || (StartsWith(rc, "route-views.") && '.' !in rc[12..]))
  }

  lemma FilenameToRcOf(rc: string, rest: string)
    requires DotFreeOrRouteViews(rc)
    ensures FilenameToRc(rc + "." + rest) == Ok(rc)
  {
    if '.' !in rc {
      SplitAfterField(rc, rest, '.');
    } else {
      var x := rc[12..];
      assert rc == "route-views" + "." + x by {
        assert rc == rc[..12] + x;
      }
      assert rc + "." + rest == "route-views" + ['.'] + (x + ['.'] + rest);
      SplitAfterField("route-views", x + ['.'] + rest, '.');
      SplitAfterField(x, rest, '.');
    }
  }

  /** The local file name of a RIS archive: collector, type, time stamp, `gz`. */
  lemma RisFilename(rc: string, ts: Moment, bgptype: string)
    requires |rc| > 0 && '/' !in rc && '.' !in rc && (bgptype == "rib" || bgptype == "update")
    ensures RisUrl(rc, ts, bgptype).Ok?
    ensures UrlToFilename(RisUrl(rc, ts, bgptype).value)
            == Ok(rc + "." + bgptype + "." + StampText(ts) + "." + "gz")
  {
    RisFieldsPlain(rc, ts);
    RisUrlFields(rc, ts, bgptype);
    RisCollector(rc, ts, bgptype);
    UrlToFilenameOfFields(RisFields(rc, ts), RisKind(bgptype), ts, "gz", rc);
  }

  /** The local file name of a RouteViews archive: collector, type, time stamp, `bz2`. */
  lemma RvFilename(rc: string, ts: Moment, bgptype: string)
    requires |rc| > 0 && '/' !in rc && Contains(rc, "route-views")
    requires bgptype == "rib" || bgptype == "update"
    ensures RvUrl(rc, ts, bgptype).Ok?
    ensures UrlToFilename(RvUrl(rc, ts, bgptype).value)
            == Ok(rc + "." + bgptype + "." + StampText(ts) + "." + "bz2")
  {
    RvFieldsPlain(rc, ts, bgptype);
    RvUrlFields(rc, ts, bgptype);
    RvCollector(rc, ts, bgptype);
    UrlToFilenameOfFields(RvFields(rc, ts, bgptype), RvKind(bgptype), ts, "bz2", rc);
  }

  /** The collector names for which the archive URL round trip gives the name back: RIS
      collectors (`rrc*`) without '.', and RouteViews collectors whose '.', if any, follows
      the `route-views` prefix (`route-views2`, `route-views.sydney`). */
  predicate RoundTrips(rc: string) {
    '/' !in rc && DotFreeOrRouteViews(rc)
    && (if StartsWith(rc, "rrc") then '.' !in rc else Contains(rc, "route-views"))
  }

  /** `filename_to_rc(url_to_filename(get_url(rc, ts, t)))` is `rc`, and the local file
      name carries the requested type and the time stamp. */
  lemma RoundTrip(rc: string, ts: Moment, bgptype: string)
    requires RoundTrips(rc) && (bgptype == "rib" || bgptype == "update")
    ensures GetUrl(rc, ts, bgptype).Ok?
    ensures UrlToFilename(GetUrl(rc, ts, bgptype).value)
            == Ok(rc + "." + bgptype + "." + StampText(ts) + "." + (if StartsWith(rc, "rrc") then "gz" else "bz2"))
    ensures FilenameToRc(UrlToFilename(GetUrl(rc, ts, bgptype).value).value) == Ok(rc)
  {
    var ext := if StartsWith(rc, "rrc") then "gz" else "bz2";
    assert |rc| > 0;
    if StartsWith(rc, "rrc") {
      RisFilename(rc, ts, bgptype);
    } else {
      RvFilename(rc, ts, bgptype);
    }
    var rest := bgptype + "." + StampText(ts) + "." + ext;
    DotFields(rc, bgptype, StampText(ts), ext);
    FilenameToRcOf(rc, rest);
  }

  /** The bare name `route-views` is routed to RouteViews but is read back as
      `route-views.<type>`: `filename_to_rc` joins the first two fields after it. */
  lemma BareRouteViews(rc: string, ts: Moment, bgptype: string)
    requires rc == "route-views" && (bgptype == "rib" || bgptype == "update")
    ensures GetUrl(rc, ts, bgptype).Ok?
    ensures UrlToFilename(GetUrl(rc, ts, bgptype).value).Ok?
    ensures FilenameToRc(UrlToFilename(GetUrl(rc, ts, bgptype).value).value) == Ok(rc + "." + bgptype)
  {
    ContainsSelf(rc);
    assert !StartsWith(rc, "rrc") by {
      assert rc[1] != "rrc"[1];
    }
    RvFilename(rc, ts, bgptype);
    DotFields(rc, bgptype, StampText(ts), "bz2");
    TypeHasNoDot(bgptype);
    RouteViewsFirstFields(bgptype, StampText(ts), "bz2");
  }

  lemma TypeHasNoDot(bgptype: string)
    requires bgptype == "rib" || bgptype == "update"
    ensures '.' !in bgptype
  {
  }

  lemma RouteViewsFirstFields(b: string, c: string, d: string)
    requires '.' !in b
    ensures FilenameToRc("route-views" + "." + (b + "." + c + "." + d)) == Ok("route-views" + "." + b)
  {
    var tail := c + "." + d;
    assert b + "." + c + "." + d == b + ['.'] + tail;
    SplitAfterField("route-views", b + ['.'] + tail, '.');
    SplitAfterField(b, tail, '.');
  }
}
