/** The observer interface of observers/observer.py. Every hook call is an `Event`: the
    family-specific pairs (`add_path_ipv4`/`add_path_ipv6`, ...) become one constructor
    with a `Family` argument, and `dump(ts)` is the checkpoint. The attributes every
    observer receives from the base constructor are `Settings`. */
module ObserverApi {
  import opened Common
  import opened AsPath

  datatype Family = IPv4 | IPv6

  /** The family a prefix string is routed to: IPv4 when it contains a dot (tested
      first), IPv6 when it contains a colon, neither otherwise (rib_table.py:229-234). */
  function FamilyOf(pfx: string): (r: Option<Family>)
    ensures r == Some(IPv4) <==> '.' in pfx
    ensures r == Some(IPv6) <==> '.' !in pfx && ':' in pfx
  {
    if '.' in pfx then Some(IPv4) else if ':' in pfx then Some(IPv6) else None
  }

  /** One hook call with its arguments. `oldPath` is `None` when the caller leaves the
      optional `old_path` argument at its default. */
  datatype Event =
    | AddPath(fam: Family, rc: string, peerIp: string, pfx: string, path: Path)
    | Withdrawal(fam: Family, rc: string, peerIp: string, pfx: string, path: Path)
    | Announcement(fam: Family, rc: string, peerIp: string, pfx: string, newPath: Path, oldPath: Option<Path>)
    | Dump(ts: int)

  const DefaultName: string := "observer"
  const DefaultOutputDir: string := "./"
  const DefaultTimeFmt: string := "%Y%m%d.%H%M"

  /** The attributes set by `Observer.__init__`. */
  datatype Settings = Settings(name: string, outputDir: string, timeFmt: string)

  /** `Observer.__init__(name="observer", output_dir="./", time_fmt='%Y%m%d.%H%M')`. */
  function BaseSettings(name: string := DefaultName, outputDir: string := DefaultOutputDir,
                        timeFmt: string := DefaultTimeFmt): (s: Settings)
    ensures s.name == name && s.outputDir == outputDir && s.timeFmt == timeFmt
  {
    Settings(name, outputDir, timeFmt)
  }

  /** An observer built without arguments is named "observer", writes to "./" and
      formats its timestamps as '%Y%m%d.%H%M'. */
  lemma DefaultSettings()
    ensures BaseSettings() == Settings("observer", "./", "%Y%m%d.%H%M")
  {
  }
}
