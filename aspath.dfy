/** AS-path normalisation and validity (rib_table.py): the text field of a record is
    split on single spaces, runs of equal adjacent tokens are collapsed (itertools.groupby
    on the strings), every kept token goes through `int()`, and the path is valid when it
    has more than one AS and starts with the peer's AS. */
module AsPath {
  import opened Common
  import opened Strings

  type Path = seq<int>

  function DigitValue(ch: char): nat
    requires IsDigit(ch)
  {
    ch as int - '0' as int
  }

  /** The value of a run of decimal digits, most significant first. */
  function ParseDigits(s: string): nat
    requires AllDigits(s)
    decreases |s|
  {
    if |s| == 0 then 0 else ParseDigits(s[..|s| - 1]) * 10 + DigitValue(s[|s| - 1])
  }

  /** `int(token)` on a token: an optional sign followed by at least one ASCII digit. */
  function ParseInt(tok: string): (r: Option<int>)
    ensures r.Some? ==> |tok| > 0 && (IsDigit(tok[0]) || tok[0] == '-' || tok[0] == '+')
  {
    if |tok| > 0 && (tok[0] == '-' || tok[0] == '+') then
      if |tok| > 1 && AllDigits(tok[1..]) then
        var magnitude: int := ParseDigits(tok[1..]);
        Some(if tok[0] == '-' then -magnitude else magnitude)
      else None
    else if |tok| > 0 && AllDigits(tok) then Some(ParseDigits(tok))
    else None
  }

  /** The keys produced by `itertools.groupby`: one element per run of equal neighbours. */
  function Collapse<T(==,!new)>(s: seq<T>): (r: seq<T>)
    ensures |r| <= |s|
    ensures |s| > 0 ==> |r| > 0 && r[0] == s[0]
    ensures forall i :: 0 <= i < |r| - 1 ==> r[i] != r[i + 1]
    ensures forall x :: x in r <==> x in s
    decreases |s|
  {
    if |s| <= 1 then s
    else if s[0] == s[1] then Collapse(s[1..])
    else [s[0]] + Collapse(s[1..])
  }

  /** groupby read from the other end: appending an element extends the last run when it
      equals the last element and opens a new run otherwise. With `Collapse([]) == []`
      this pins the run keys down completely, so for example [1, 2, 1, 2] keeps all four. */
  lemma {:induction false} CollapseSnoc<T(!new)>(s: seq<T>, x: T)
    ensures Collapse(s + [x]) == if |s| > 0 && s[|s| - 1] == x then Collapse(s) else Collapse(s) + [x]
    decreases |s|
  {
    if |s| == 1 {
      assert s + [x] == [s[0], x];
      assert [s[0], x][1..] == [x];
    } else if |s| > 1 {
      var t := s + [x];
      assert t[0] == s[0] && t[1] == s[1];
      assert t[1..] == s[1..] + [x];
      assert s[1..][|s[1..]| - 1] == s[|s| - 1];
      CollapseSnoc(s[1..], x);
      if s[0] != s[1] && s[|s| - 1] != x {
        assert [s[0]] + (Collapse(s[1..]) + [x]) == ([s[0]] + Collapse(s[1..])) + [x];
      }
    }
  }

  /** The list comprehension `[int(k) for k in tokens]`: `None` is the `ValueError`. */
  function ParseAll(tokens: seq<string>): (r: Option<Path>)
    ensures r.Some? ==> |r.value| == |tokens|
    ensures r.Some? ==> forall i :: 0 <= i < |tokens| ==> ParseInt(tokens[i]) == Some(r.value[i])
    ensures r.None? <==> exists i :: 0 <= i < |tokens| && ParseInt(tokens[i]).None?
    decreases |tokens|
  {
    if |tokens| == 0 then Some([])
    else
      var head := ParseInt(tokens[0]);
      var rest := ParseAll(tokens[1..]);
      if head.Some? && rest.Some? then Some([head.value] + rest.value)
      else
        assert head.None? || ParseInt(tokens[1..][0]).None? || exists i :: 1 <= i < |tokens[1..]| && ParseInt(tokens[1..][i]).None?;
        None
  }

  function Tokens(asPath: string): seq<string> {
    Collapse(Split(asPath, ' '))
  }

  /** `[int(k) for k, g in groupby(as_path.split(" "))]` (rib_table.py:222, 321-322). */
  function ParsePath(asPath: string): (r: Option<Path>)
    ensures r.Some? ==> |r.value| == |Tokens(asPath)| >= 1
  {
    ParseAll(Tokens(asPath))
  }

  /** rib_table.py:380-381. */
  predicate IsValidPath(path: Path, peerAsn: int) {
    |path| > 1 && path[0] == peerAsn
  }

  /** A path fails to parse exactly when some space-separated token is not an integer:
      an AS_SET such as `{64501,64502}` therefore invalidates the whole path. */
  lemma ParsePathFails(asPath: string)
    ensures ParsePath(asPath).None? <==>
            exists t :: t in Split(asPath, ' ') && ParseInt(t).None?
  {
    var toks := Split(asPath, ' ');
    var kept := Collapse(toks);
    if ParsePath(asPath).None? {
      var i :| 0 <= i < |kept| && ParseInt(kept[i]).None?;
      assert kept[i] in toks;
    } else {
      forall t | t in toks ensures ParseInt(t).Some? {
        var i :| 0 <= i < |kept| && kept[i] == t;
      }
    }
  }

  /** A token holding a brace never parses, so an AS_SET segment makes the path invalid. */
  lemma AsSetRejected(asPath: string, t: string)
    requires t in Split(asPath, ' ') && '{' in t
    ensures ParsePath(asPath) == None
  {
    var i :| 0 <= i < |t| && t[i] == '{';
    if t[0] == '-' || t[0] == '+' {
      assert i > 0 && t[1..][i - 1] == '{';
      assert !AllDigits(t[1..]);
    } else {
      assert !AllDigits(t);
    }
    ParsePathFails(asPath);
  }

  // ---- Canonical rendering: what a route collector dump writes for a list of ASNs ----

  function DigitChar(d: nat): (ch: char)
    requires d < 10
    ensures IsDigit(ch) && DigitValue(ch) == d
  {
    ('0' as int + d) as char
  }

  /** The decimal text of a natural number, without leading zeros. */
  function Decimal(n: nat): (s: string)
    ensures |s| >= 1 && AllDigits(s)
    decreases n
  {
    if n < 10 then [DigitChar(n)] else Decimal(n / 10) + [DigitChar(n % 10)]
  }

  lemma {:induction false} ParseDecimal(n: nat)
    ensures ParseDigits(Decimal(n)) == n
    decreases n
  {
    if n >= 10 {
      ParseDecimal(n / 10);
      var s := Decimal(n);
      assert s[..|s| - 1] == Decimal(n / 10);
    }
  }

  lemma DecimalInjective(a: nat, b: nat)
    requires Decimal(a) == Decimal(b)
    ensures a == b
  {
    ParseDecimal(a);
    ParseDecimal(b);
  }

  function Decimals(p: seq<nat>): (r: seq<string>)
    ensures |r| == |p|
    ensures forall i :: 0 <= i < |p| ==> r[i] == Decimal(p[i])
  {
    seq(|p|, i requires 0 <= i < |p| => Decimal(p[i]))
  }

  /** The AS-path text of a list of ASNs: decimals separated by single spaces. */
  function Render(p: seq<nat>): string {
    Join(Decimals(p), ' ')
  }

  lemma {:induction false} CollapseDecimals(p: seq<nat>)
    ensures Collapse(Decimals(p)) == Decimals(Collapse(p))
    decreases |p|
  {
    if |p| > 1 {
      CollapseDecimals(p[1..]);
      assert Decimals(p)[1..] == Decimals(p[1..]);
      if p[0] != p[1] {
        if Decimal(p[0]) == Decimal(p[1]) { DecimalInjective(p[0], p[1]); }
        assert Decimals([p[0]] + Collapse(p[1..])) == [Decimal(p[0])] + Decimals(Collapse(p[1..]));
      }
    }
  }

  lemma ParseAllDecimals(p: seq<nat>)
    ensures ParseAll(Decimals(p)) == Some(p)
  {
    var r := ParseAll(Decimals(p));
    forall i | 0 <= i < |p| ensures ParseInt(Decimals(p)[i]) == Some(p[i] as int) {
      ParseDecimal(p[i]);
    }
    assert r.Some?;
    assert r.value == p;
  }

  /** Round trip: parsing the rendering of a non-empty ASN list gives the list with its
      runs of equal neighbours collapsed, so no two adjacent entries of it are equal. */
  lemma ParseRendered(p: seq<nat>)
    requires |p| >= 1
    ensures ParsePath(Render(p)) == Some(Collapse(p))
  {
    forall i | 0 <= i < |Decimals(p)| ensures ' ' !in Decimals(p)[i] {
      assert AllDigits(Decimal(p[i]));
    }
    SplitJoin(Decimals(p), ' ');
    CollapseDecimals(p);
    ParseAllDecimals(Collapse(p));
  }
}
