/**
 Mount points, <ip>@tcp:/<fsname>: printed as the source of a mount, parsed from a volume
 attribute, and searched for in the mount table (pkg/csi_driver/node.go). The two regular
 expressions are written out: a dot matches no newline, repetition is greedy, and an
 unanchored expression takes the leftmost match.
 */
module MountPoints {
  import opened Options

  const SEP := "@tcp:/"

  function Print(ip: string, fsname: string): string {
    ip + SEP + fsname
  }

  predicate SepAt(s: string, j: nat) {
    j + |SEP| <= |s| && s[j..j + |SEP|] == SEP
  }

  predicate OneLine(s: string) {
    '\n' !in s
  }

  // ---- ^(.+)@tcp:/([^/]+)$ ----

  predicate SplitsAt(s: string, j: nat) {
    0 < j && SepAt(s, j) && OneLine(s[..j]) && s[j + |SEP|..] != "" && '/' !in s[j + |SEP|..]
  }

  /** The largest split at or below j. */
  function LastSplit(s: string, j: nat): (r: Option<nat>)
    ensures r.Some? ==> r.value <= j && SplitsAt(s, r.value)
    ensures r.None? ==> forall i: nat | i <= j :: !SplitsAt(s, i)
  {
    if SplitsAt(s, j) then Some(j) else if j == 0 then None else LastSplit(s, j - 1)
  }

  function Parse(mountPoint: string): Option<(string, string)> {
    var j := LastSplit(mountPoint, |mountPoint|);
    if j.None? then None else Some((mountPoint[..j.value], mountPoint[j.value + |SEP|..]))
  }

  predicate Printable(ip: string, fsname: string) {
    ip != "" && OneLine(ip) && fsname != "" && '/' !in fsname
  }

  /** Every separator ends in a slash. */
  lemma SlashAfter(s: string, i: nat, j: nat)
    requires SepAt(s, i) && SepAt(s, j) && i < j
    ensures '/' in s[i + |SEP|..]
  {
    assert s[j..j + |SEP|][|SEP| - 1] == '/';
    assert s[j + |SEP| - 1] == s[i + |SEP|..][j - i - 1];
  }

  /** So a slash-free rest leaves only one place to split. */
  lemma SplitIsUnique(s: string, i: nat, j: nat)
    requires SplitsAt(s, i) && SplitsAt(s, j)
    ensures i == j
  {
    if i < j {
      SlashAfter(s, i, j);
    } else if j < i {
      SlashAfter(s, j, i);
    }
  }

  lemma PrintSplits(ip: string, fsname: string)
    ensures var s := Print(ip, fsname);
            SepAt(s, |ip|) && s[..|ip|] == ip && s[|ip| + |SEP|..] == fsname
  {
  }

  /** Printing what was parsed gives back the input, and only printable parts are accepted. */
  lemma PrintOfParse(mountPoint: string)
    requires Parse(mountPoint).Some?
    ensures var (ip, fsname) := Parse(mountPoint).value;
            Print(ip, fsname) == mountPoint == ip + "@tcp:/" + fsname && Printable(ip, fsname)
  {
    var j := LastSplit(mountPoint, |mountPoint|).value;
    assert mountPoint == mountPoint[..j] + mountPoint[j..j + |SEP|] + mountPoint[j + |SEP|..];
  }

  /** What was printed parses back exactly when the parts are printable. */
  lemma ParseOfPrint(ip: string, fsname: string)
    ensures Parse(Print(ip, fsname)) == Some((ip, fsname)) <==> Printable(ip, fsname)
  {
    var s := Print(ip, fsname);
    PrintSplits(ip, fsname);
    if Printable(ip, fsname) {
      assert SplitsAt(s, |ip|);
      SplitIsUnique(s, LastSplit(s, |s|).value, |ip|);
    } else if Parse(s) == Some((ip, fsname)) {
      PrintOfParse(s);
    }
  }

  // ---- .+@tcp:/([^/]+), anywhere ----

  predicate NameAt(s: string, i: nat, j: nat) {
    i < j && SepAt(s, j) && OneLine(s[i..j]) && j + |SEP| < |s| && s[j + |SEP|] != '/'
  }

  /** The longest first part: the largest j at or below the bound, for a match that starts at i. */
  function LastName(s: string, i: nat, j: nat): (r: Option<nat>)
    ensures r.Some? ==> r.value <= j && NameAt(s, i, r.value) && forall k: nat | r.value < k <= j :: !NameAt(s, i, k)
    ensures r.None? ==> forall k: nat | k <= j :: !NameAt(s, i, k)
  {
    if NameAt(s, i, j) then Some(j) else if j == 0 then None else LastName(s, i, j - 1)
  }

  function SlashFreePrefix(s: string): (r: string)
    ensures '/' !in r && r <= s && ('/' !in s ==> r == s)
  {
    if s == [] || s[0] == '/' then [] else [s[0]] + SlashFreePrefix(s[1..])
  }

  /** No match starts here. */
  predicate Unmatched(s: string, i: nat) {
    forall j: nat | j <= |s| :: !NameAt(s, i, j)
  }

  /** Where the leftmost match at or after i starts. */
  function FirstMatch(s: string, i: nat): (r: Option<nat>)
    requires i <= |s|
    ensures r.Some? ==> i <= r.value <= |s| && !Unmatched(s, r.value)
                        && forall k: nat | i <= k < r.value :: Unmatched(s, k)
    ensures r.None? ==> forall k: nat | i <= k <= |s| :: Unmatched(s, k)
    decreases |s| - i
  {
    if !Unmatched(s, i) then Some(i) else if i == |s| then None else FirstMatch(s, i + 1)
  }

  /** The file-system name in the source of a mount, or the empty string. */
  function ExtractFsName(source: string): (r: string)
    ensures '/' !in r && forall c | c in r :: c in source
  {
    var i := FirstMatch(source, 0);
    if i.None? then "" else SlashFreePrefix(source[LastName(source, i.value, |source|).value + |SEP|..])
  }

  /** A separator beyond the printed one puts a slash into the name. */
  lemma LaterSeparator(ip: string, fsname: string, j: nat)
    requires |ip| < j && SepAt(Print(ip, fsname), j)
    ensures '/' in fsname
  {
    var s := Print(ip, fsname);
    assert s[j..j + |SEP|][|SEP| - 1] == '/';
    assert s[j + |SEP| - 1] == fsname[j - |ip| - 1];
  }

  lemma NoNameAfter(ip: string, fsname: string, i: nat)
    requires |ip| <= i && '/' !in fsname
    ensures Unmatched(Print(ip, fsname), i)
  {
    var s := Print(ip, fsname);
    forall j: nat | j <= |s| ensures !NameAt(s, i, j) {
      if |ip| < j && SepAt(s, j) {
        LaterSeparator(ip, fsname, j);
      }
    }
  }

  lemma NameFollows(ip: string, fsname: string)
    requires ip != "" && OneLine(ip) && fsname != "" && '/' !in fsname
    ensures var s := Print(ip, fsname); NameAt(s, 0, |ip|) && LastName(s, 0, |s|) == Some(|ip|)
  {
    var s := Print(ip, fsname);
    PrintSplits(ip, fsname);
    assert s[|ip| + |SEP|] == fsname[0];
    assert NameAt(s, 0, |ip|);
    var j := LastName(s, 0, |s|).value;
    if j > |ip| {
      LaterSeparator(ip, fsname, j);
    }
  }

  lemma NoMatchAtAll(s: string)
    requires forall k: nat | k <= |s| :: Unmatched(s, k)
    ensures ExtractFsName(s) == ""
  {
  }

  /** A name without a slash is found, unless nothing stands before the separator. */
  lemma ExtractsName(ip: string, fsname: string)
    requires OneLine(ip) && fsname != "" && '/' !in fsname
    ensures ExtractFsName(Print(ip, fsname)) == if ip == "" then "" else fsname
  {
    var s := Print(ip, fsname);
    if ip == "" {
      forall k: nat | k <= |s| ensures Unmatched(s, k) {
        NoNameAfter(ip, fsname, k);
      }
      NoMatchAtAll(s);
    } else {
      NameFollows(ip, fsname);
      assert FirstMatch(s, 0) == Some(0);
      PrintSplits(ip, fsname);
    }
  }

  /** On one line the name is found in the printed source exactly when it has no slash. */
  lemma ExtractOfPrint(ip: string, fsname: string)
    requires ip != "" && OneLine(ip) && fsname != ""
    ensures ExtractFsName(Print(ip, fsname)) == fsname <==> '/' !in fsname
  {
    if '/' !in fsname {
      ExtractsName(ip, fsname);
    }
  }
}
