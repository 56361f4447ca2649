/**
 The LNet network string, tcp0(nic,nic,...): written by the kernel-module installer, handed over
 in a kernel parameter file, and read back by the driver to find its additional NICs
 (pkg/kmod_installer/kmod_installer.go, cmd/csi_driver/main.go).
 */
module LnetNetworks {
  import opened Options
  import opened Text

  const OPEN := "tcp0("
  const CLOSE := ")"

  /** The NICs other than the given one, in order. */
  function Without(nics: seq<string>, nic: string): seq<string> {
    if nics == [] then []
    else if nics[0] == nic then Without(nics[1..], nic)
    else [nics[0]] + Without(nics[1..], nic)
  }

  function Ordered(nics: seq<string>, primary: string, disableMultiNic: bool): seq<string> {
    if disableMultiNic then [primary] else [primary] + Without(nics, primary)
  }

  function Built(nics: seq<string>, primary: string, disableMultiNic: bool): string {
    OPEN + Join(Ordered(nics, primary, disableMultiNic), ',') + CLOSE
  }

  lemma {:induction false} WithoutConcat(a: seq<string>, b: seq<string>, nic: string)
    ensures Without(a + b, nic) == Without(a, nic) + Without(b, nic)
  {
    if a == [] {
      assert a + b == b;
    } else {
      WithoutConcat(a[1..], b, nic);
      assert (a + b)[0] == a[0] && (a + b)[1..] == a[1..] + b;
      var rest := Without(a[1..], nic);
      assert ([a[0]] + rest) + Without(b, nic) == [a[0]] + (rest + Without(b, nic));
    }
  }

  lemma WithoutTake(nics: seq<string>, i: nat, nic: string)
    requires i < |nics|
    ensures Without(nics[..i + 1], nic) == Without(nics[..i], nic) + (if nics[i] == nic then [] else [nics[i]])
  {
    assert nics[..i + 1] == nics[..i] + [nics[i]];
    WithoutConcat(nics[..i], [nics[i]], nic);
  }

  method BuildLnetNetworkString(nics: seq<string>, primary: string, disableMultiNic: bool) returns (s: string)
    ensures s == Built(nics, primary, disableMultiNic)
  {
    if disableMultiNic {
      return OPEN + primary + CLOSE;
    }
    var ordered := [primary];
    for i := 0 to |nics|
      invariant ordered == [primary] + Without(nics[..i], primary)
    {
      WithoutTake(nics, i, primary);
      if nics[i] != primary {
        ordered := ordered + [nics[i]];
      }
    }
    assert nics[..|nics|] == nics;
    return OPEN + Join(ordered, ',') + CLOSE;
  }

  /** The loop in main that leaves out the default NIC. */
  method AdditionalNics(nics: seq<string>, defaultNic: string) returns (additional: seq<string>)
    ensures additional == Without(nics, defaultNic)
  {
    additional := [];
    for i := 0 to |nics|
      invariant additional == Without(nics[..i], defaultNic)
    {
      WithoutTake(nics, i, defaultNic);
      if nics[i] != defaultNic {
        additional := additional + [nics[i]];
      }
    }
    assert nics[..|nics|] == nics;
  }

  // ---- reading ----

  /** The parameter file, or None when it does not exist; a missing or blank file means the default NIC alone. */
  function ReadConfig(file: Option<string>, defaultNic: string): string {
    if file.None? || TrimSpace(file.value) == "" then OPEN + defaultNic + CLOSE else TrimSpace(file.value)
  }

  function TrimPrefix(s: string, prefix: string): string {
    if prefix <= s then s[|prefix|..] else s
  }

  function TrimSuffix(s: string, suffix: string): string {
    if |suffix| <= |s| && s[|s| - |suffix|..] == suffix then s[..|s| - |suffix|] else s
  }

  function ParseLnetNetwork(network: string): seq<string> {
    var inner := TrimSuffix(TrimPrefix(network, OPEN), CLOSE);
    if inner == "" then [] else Split(inner, ',')
  }

  /** White space around a written string is trimmed, and only that. */
  lemma ReadsWritten(inner: string, lead: string, trail: string, defaultNic: string)
    requires AllSpace(lead) && AllSpace(trail)
    ensures ReadConfig(Some(lead + (OPEN + inner + CLOSE) + trail), defaultNic) == OPEN + inner + CLOSE
  {
    TrimAround(lead, OPEN + inner + CLOSE, trail);
  }

  lemma ParsesInner(inner: string)
    ensures ParseLnetNetwork(OPEN + inner + CLOSE) == if inner == "" then [] else Split(inner, ',')
  {
    var s := OPEN + inner + CLOSE;
    assert OPEN <= s && s[|OPEN|..] == inner + CLOSE;
    assert (inner + CLOSE)[|inner|..] == CLOSE && (inner + CLOSE)[..|inner|] == inner;
  }

  // ---- the round trip ----

  /** What the driver derives from a file the installer wrote, with white space around it. */
  function ReadBack(
    nics: seq<string>, primary: string, disableMultiNic: bool, lead: string, trail: string): seq<string>
  {
    Without(ParseLnetNetwork(ReadConfig(Some(lead + Built(nics, primary, disableMultiNic) + trail), primary)), primary)
  }

  /** The additional NICs the installer meant. */
  function Meant(nics: seq<string>, primary: string, disableMultiNic: bool): seq<string> {
    if disableMultiNic then [] else Without(nics, primary)
  }

  predicate CommaFree(nics: seq<string>) {
    forall i | 0 <= i < |nics| :: ',' !in nics[i]
  }

  lemma {:induction false} WithoutKeeps(nics: seq<string>, nic: string)
    ensures CommaFree(nics) ==> CommaFree(Without(nics, nic))
    ensures forall i | 0 <= i < |Without(nics, nic)| :: Without(nics, nic)[i] != nic
    ensures (forall i | 0 <= i < |nics| :: nics[i] != nic) ==> Without(nics, nic) == nics
  {
    if nics != [] {
      WithoutKeeps(nics[1..], nic);
    }
  }

  lemma ReadBackIsSplit(nics: seq<string>, primary: string, disableMultiNic: bool, lead: string, trail: string)
    requires AllSpace(lead) && AllSpace(trail)
    ensures ReadBack(nics, primary, disableMultiNic, lead, trail) ==
              Without(Split(Join(Ordered(nics, primary, disableMultiNic), ','), ','), primary)
  {
    var inner := Join(Ordered(nics, primary, disableMultiNic), ',');
    ReadsWritten(inner, lead, trail, primary);
    ParsesInner(inner);
    if inner == "" {
      assert |Ordered(nics, primary, disableMultiNic)| == 1 && primary == "";
    }
  }

  /**
   The driver reads back exactly the NICs the installer meant, in order, if and only if
   no name that was written contains a comma.
   */
  lemma WrittenIsReadBack(nics: seq<string>, primary: string, disableMultiNic: bool, lead: string, trail: string)
    requires AllSpace(lead) && AllSpace(trail)
    ensures ReadBack(nics, primary, disableMultiNic, lead, trail) == Meant(nics, primary, disableMultiNic)
       <==> CommaFree(Ordered(nics, primary, disableMultiNic))
  {
    var names, meant := Ordered(nics, primary, disableMultiNic), Meant(nics, primary, disableMultiNic);
    assert names == [primary] + meant;
    ReadBackIsSplit(nics, primary, disableMultiNic, lead, trail);
    if CommaFree(names) {
      SplitOfJoin(names, ',');
      WithoutConcat([primary], meant, primary);
      WithoutKeeps(nics, primary);
      WithoutKeeps(meant, primary);
    } else {
      PiecesAreFree(Join(names, ','), ',');
      WithoutKeeps(Split(Join(names, ','), ','), primary);
      if CommaFree(meant) {
        CommaInPrimary(primary, meant);
      }
    }
  }

  /** The string is tcp0 with the names in parentheses. */
  lemma WrittenForm(nics: seq<string>, primary: string, disableMultiNic: bool)
    ensures "tcp0(" + primary <= Built(nics, primary, disableMultiNic)
    ensures var s := Built(nics, primary, disableMultiNic); s[|s| - 1] == ')' && s[|primary| + 5] in {',', ')'}
  {
    var names := Ordered(nics, primary, disableMultiNic);
    assert names[0] == primary;
    if |names| > 1 {
      assert Join(names, ',') == primary + [','] + Join(names[1..], ',');
      assert Built(nics, primary, disableMultiNic)[|primary| + 5] == ',';
    }
  }

  /** For names without a comma, the string lists the primary NIC first and then the additional ones in order. */
  lemma WrittenOrder(nics: seq<string>, primary: string, disableMultiNic: bool)
    requires CommaFree(nics) && ',' !in primary && primary != ""
    ensures ParseLnetNetwork(Built(nics, primary, disableMultiNic)) ==
              [primary] + if disableMultiNic then [] else Without(nics, primary)
  {
    var names := Ordered(nics, primary, disableMultiNic);
    WithoutKeeps(nics, primary);
    SplitOfJoin(names, ',');
    ParsesInner(Join(names, ','));
  }

  /** With a comma in the primary name the driver sees more NICs than were meant. */
  lemma CommaInPrimary(primary: string, meant: seq<string>)
    requires ',' in primary && CommaFree(meant)
    ensures |Without(Split(Join([primary] + meant, ','), ','), primary)| > |meant|
  {
    var pieces := Split(Join([primary] + meant, ','), ',');
    SplitFree(primary, ',');
    if meant != [] {
      assert ([primary] + meant)[1..] == meant;
      SplitAtSeparator(primary, ',', Join(meant, ','));
      SplitOfJoin(meant, ',');
    } else {
      assert [primary] + meant == [primary];
    }
    PiecesAreFree(Join([primary] + meant, ','), ',');
    WithoutKeeps(pieces, primary);
  }

  /** A missing or blank file yields the default NIC, and no additional one. */
  lemma BlankFileMeansNone(file: Option<string>, defaultNic: string)
    requires file.Some? ==> AllSpace(file.value)
    requires ',' !in defaultNic
    ensures ParseLnetNetwork(ReadConfig(file, defaultNic)) == if defaultNic == "" then [] else [defaultNic]
    ensures Without(ParseLnetNetwork(ReadConfig(file, defaultNic)), defaultNic) == []
  {
    if file.Some? {
      TrimLeftToNothing(file.value);
    }
    ParsesInner(defaultNic);
    SplitFree(defaultNic, ',');
  }
}
