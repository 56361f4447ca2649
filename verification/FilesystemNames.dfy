/**
 Automatic file-system names, lfs<NNNNN>, unique within a region
 (pkg/csi_driver/controller.go, pkg/util/util.go). Random draws are a parameter.
 */
module FilesystemNames {
  import opened Options
  import opened Text
  import opened Cardinality

  const PREFIX := "lfs"
  const CANDIDATES := 100000

  /** auto: the driver chose the name. */
  datatype Instance = Instance(zone: string, fsname: string, auto: bool)

  /** The region of a zone; None when the location is not a zone. */
  function RegionOf(location: string): Option<string> {
    var tokens := Split(location, '-');
    if location == "" || |tokens| != 3 then None else Some(Join(tokens[..2], '-'))
  }

  function ZonesOf(locations: seq<string>, region: string): seq<string> {
    if locations == [] then []
    else
      var rest := ZonesOf(locations[..|locations| - 1], region);
      var last := locations[|locations| - 1];
      if RegionOf(last) == Some(region) then rest + [last] else rest
  }

  method FilterZonesByRegion(locations: seq<string>, region: string) returns (zones: seq<string>)
    ensures zones == ZonesOf(locations, region)
    ensures forall z :: z in zones <==> z in locations && RegionOf(z) == Some(region)
  {
    zones := [];
    for i := 0 to |locations|
      invariant zones == ZonesOf(locations[..i], region)
      invariant forall z :: z in zones <==> z in locations[..i] && RegionOf(z) == Some(region)
    {
      assert locations[..i + 1][..i] == locations[..i];
      assert locations[..i + 1] == locations[..i] + [locations[i]];
      var zoneRegion := RegionOf(locations[i]);
      if zoneRegion == Some(region) {
        zones := zones + [locations[i]];
      }
    }
    assert locations[..|locations|] == locations;
  }

  /** The names in use in the listed zones of a region. */
  function Taken(instances: seq<Instance>, locations: seq<string>, region: string): set<string> {
    set i | 0 <= i < |instances| && instances[i].zone in locations && RegionOf(instances[i].zone) == Some(region)
      :: instances[i].fsname
  }

  // ---- candidates ----

  function Digit(n: nat): char {
    (n % 10 + '0' as int) as char
  }

  function Digits(n: nat, width: nat): string {
    if width == 0 then "" else Digits(n / 10, width - 1) + [Digit(n)]
  }

  function Pow10(width: nat): nat {
    if width == 0 then 1 else 10 * Pow10(width - 1)
  }

  /** A draw of five digits. */
  function Candidate(n: nat): string {
    PREFIX + Digits(n, 5)
  }

  lemma {:induction false} DigitsDiffer(m: nat, n: nat, width: nat)
    requires m < Pow10(width) && n < Pow10(width) && Digits(m, width) == Digits(n, width)
    ensures m == n
  {
    if width > 0 {
      var a, b := Digits(m / 10, width - 1), Digits(n / 10, width - 1);
      assert a == (a + [Digit(m)])[..|a + [Digit(m)]| - 1] && b == (b + [Digit(n)])[..|b + [Digit(n)]| - 1];
      assert (a + [Digit(m)])[|a|] == (b + [Digit(n)])[|b|];
      DigitsDiffer(m / 10, n / 10, width - 1);
    }
  }

  lemma CandidatesDiffer(m: nat, n: nat)
    requires m < CANDIDATES && n < CANDIDATES && m != n
    ensures Candidate(m) != Candidate(n)
  {
    if Candidate(m) == Candidate(n) {
      assert Digits(m, 5) == Candidate(m)[|PREFIX|..] && Digits(n, 5) == Candidate(n)[|PREFIX|..];
      assert Pow10(5) == CANDIDATES;
      DigitsDiffer(m, n, 5);
    }
  }

  /** The number a text of digits stands for. */
  function ValueOf(s: string): int {
    if s == "" then 0 else 10 * ValueOf(s[..|s| - 1]) + (s[|s| - 1] as int - '0' as int)
  }

  lemma {:induction false} DigitsRead(n: nat, width: nat)
    ensures |Digits(n, width)| == width && forall i | 0 <= i < width :: '0' <= Digits(n, width)[i] <= '9'
    ensures n < Pow10(width) ==> ValueOf(Digits(n, width)) == n
  {
    if width > 0 {
      DigitsRead(n / 10, width - 1);
      var rest := Digits(n / 10, width - 1);
      assert (rest + [Digit(n)])[..|rest + [Digit(n)]| - 1] == rest;
    }
  }

  /** A candidate is lfs and five decimal digits that read as the number drawn. */
  lemma CandidateForm(n: nat)
    requires n < 100000
    ensures var s := Candidate(n);
            |s| == 8 && s[..3] == "lfs" && (forall i | 3 <= i < 8 :: '0' <= s[i] <= '9') && ValueOf(s[3..]) == n
  {
    DigitsRead(n, 5);
    assert Pow10(5) == 100000;
    assert Candidate(n)[3..] == Digits(n, 5);
  }

  /** While fewer than 100000 names are taken, some draw is free. */
  lemma FreeCandidateExists(taken: set<string>) returns (n: nat)
    requires |taken| < CANDIDATES
    ensures n < CANDIDATES && Candidate(n) !in taken
  {
    forall i, j | 0 <= i < j < CANDIDATES ensures Candidate(i) != Candidate(j) {
      CandidatesDiffer(i, j);
    }
    ImageCount(Candidate, CANDIDATES);
    if Image(Candidate, CANDIDATES) <= taken {
      SubsetIsSmaller(Image(Candidate, CANDIDATES), taken);
    }
    var name :| name in Image(Candidate, CANDIDATES) && name !in taken;
    n :| 0 <= n < CANDIDATES && Candidate(n) == name;
  }

  // ---- generation ----

  /** The first draw whose name is free; None when the draws run out (the random source fails). */
  function FirstFree(draws: seq<nat>, taken: set<string>): (r: Option<string>)
    ensures r.Some? ==> r.value !in taken
    ensures r.None? <==> forall i | 0 <= i < |draws| :: Candidate(draws[i]) in taken
  {
    if draws == [] then None
    else if Candidate(draws[0]) !in taken then Some(Candidate(draws[0]))
    else
      var r := FirstFree(draws[1..], taken);
      assert forall i | 1 <= i < |draws| :: draws[i] == draws[1..][i - 1];
      r
  }

  lemma {:induction false} FirstFreeSkips(draws: seq<nat>, taken: set<string>, n: nat)
    requires n <= |draws| && forall j | 0 <= j < n :: Candidate(draws[j]) in taken
    ensures FirstFree(draws, taken) == FirstFree(draws[n..], taken)
  {
    if n > 0 {
      FirstFreeSkips(draws[1..], taken, n - 1);
      assert draws[1..][n - 1..] == draws[n..];
    } else {
      assert draws[0..] == draws;
    }
  }

  function Generated(
    instances: seq<Instance>, locations: seq<string>, zone: string, predefined: string, draws: seq<nat>): Option<string>
  {
    if predefined != "" then Some(predefined)
    else if RegionOf(zone).None? then None
    else FirstFree(draws, Taken(instances, locations, RegionOf(zone).value))
  }

  /** One zone's ListInstance, collected into the set of names. */
  method AddNamesOfZone(instances: seq<Instance>, zone: string, names: set<string>) returns (all: set<string>)
    ensures all == names + (set i | 0 <= i < |instances| && instances[i].zone == zone :: instances[i].fsname)
  {
    all := names;
    for i := 0 to |instances|
      invariant all == names + (set j | 0 <= j < i && instances[j].zone == zone :: instances[j].fsname)
    {
      if instances[i].zone == zone {
        all := all + {instances[i].fsname};
      }
    }
  }

  method ExistingNames(instances: seq<Instance>, locations: seq<string>, region: string) returns (names: set<string>)
    ensures names == Taken(instances, locations, region)
  {
    var zones := FilterZonesByRegion(locations, region);
    names := {};
    for i := 0 to |zones|
      invariant names == set j | 0 <= j < |instances| && instances[j].zone in zones[..i] :: instances[j].fsname
    {
      assert forall z :: z in zones[..i + 1] <==> z in zones[..i] || z == zones[i];
      names := AddNamesOfZone(instances, zones[i], names);
    }
    assert zones[..|zones|] == zones;
  }

  /** Every name that is drawn is in use in the region. */
  predicate AllTaken(instances: seq<Instance>, locations: seq<string>, zone: string, draws: seq<nat>)
    requires RegionOf(zone).Some?
  {
    forall i | 0 <= i < |draws| :: Candidate(draws[i]) in Taken(instances, locations, RegionOf(zone).value)
  }

  method GenerateUniqueFilesystemName(
    instances: seq<Instance>, locations: seq<string>, zone: string, predefined: string, draws: seq<nat>)
    returns (r: Option<string>)
    ensures r == Generated(instances, locations, zone, predefined, draws)
    ensures predefined != "" ==> r == Some(predefined)
    ensures r.None? <==> predefined == "" && (RegionOf(zone).None? || AllTaken(instances, locations, zone, draws))
  {
    if predefined != "" {
      return Some(predefined);
    }
    var region := RegionOf(zone);
    if region.None? {
      return None;
    }
    var names := ExistingNames(instances, locations, region.value);
    for i := 0 to |draws|
      invariant forall j | 0 <= j < i :: Candidate(draws[j]) in names
    {
      FirstFreeSkips(draws, names, i);
      if Candidate(draws[i]) !in names {
        return Some(Candidate(draws[i]));
      }
    }
    return None;
  }

  /** A region is its zone without the last dash and what follows. */
  lemma ZoneIsRegionAndSuffix(location: string)
    requires RegionOf(location).Some?
    ensures exists suffix :: '-' !in suffix && location == RegionOf(location).value + "-" + suffix
  {
    HasThreeParts(location);
  }

  /** A location has a region exactly when it is three parts with dashes between them; then the first two are it. */
  lemma RegionExactly(location: string, region: string)
    ensures RegionOf(location) == Some(region) <==>
              exists a, b, c :: '-' !in a && '-' !in b && '-' !in c
                                && region == a + "-" + b && location == region + "-" + c
  {
    if RegionOf(location) == Some(region) {
      HasThreeParts(location);
    }
    if a, b, c :| '-' !in a && '-' !in b && '-' !in c && region == a + "-" + b && location == region + "-" + c {
      PartsAreSplit(a, b, c);
      assert location == a + "-" + b + "-" + c;
    }
  }

  lemma HasThreeParts(location: string)
    requires RegionOf(location).Some?
    ensures exists a, b, c :: '-' !in a && '-' !in b && '-' !in c && RegionOf(location).value == a + "-" + b
                              && location == RegionOf(location).value + "-" + c
  {
    var tokens := Split(location, '-');
    JoinOfSplit(location, '-');
    PiecesAreFree(location, '-');
    var a, b, c := tokens[0], tokens[1], tokens[2];
    assert tokens == [a, b, c] && [a, b, c][1..] == [b, c] && [b, c][1..] == [c];
    assert tokens[..2] == [a, b] && [a, b][1..] == [b];
    assert Join([b, c], '-') == b + ['-'] + c && Join([a, b], '-') == a + ['-'] + b;
    assert location == (a + ['-'] + b) + "-" + c;
  }

  lemma PartsAreSplit(a: string, b: string, c: string)
    requires '-' !in a && '-' !in b && '-' !in c
    ensures RegionOf(a + "-" + b + "-" + c) == Some(a + "-" + b)
  {
    SplitOfJoin([a, b, c], '-');
    assert [a, b, c][1..] == [b, c] && [b, c][1..] == [c] && [a, b][1..] == [b];
    assert Join([b, c], '-') == b + ['-'] + c && Join([a, b], '-') == a + ['-'] + b;
    assert a + "-" + b + "-" + c == a + ['-'] + (b + ['-'] + c);
    assert [a, b, c][..2] == [a, b];
  }

  /** A generated name differs from every name in use in the region, in all its listed zones. */
  lemma GeneratedIsFresh(instances: seq<Instance>, locations: seq<string>, zone: string, draws: seq<nat>, i: nat)
    requires Generated(instances, locations, zone, "", draws).Some?
    requires i < |instances| && instances[i].zone in locations && RegionOf(instances[i].zone) == RegionOf(zone)
    ensures instances[i].fsname != Generated(instances, locations, zone, "", draws).value
  {
    assert instances[i].fsname in Taken(instances, locations, RegionOf(zone).value);
  }

  // ---- creations and deletions, one after the other ----

  datatype Event =
    | CreateAuto(zone: string, draws: seq<nat>)
    | CreateNamed(zone: string, fsname: string)
    | Delete(index: nat)

  function Apply(locations: seq<string>, instances: seq<Instance>, e: Event): seq<Instance> {
    match e
    case CreateAuto(zone, draws) =>
      var name := Generated(instances, locations, zone, "", draws);
      if name.None? then instances else instances + [Instance(zone, name.value, true)]
    case CreateNamed(zone, fsname) => if fsname == "" then instances else instances + [Instance(zone, fsname, false)]
    case Delete(i) => if i < |instances| then instances[..i] + instances[i + 1..] else instances
  }

  function Run(locations: seq<string>, tr: seq<Event>): seq<Instance> {
    if tr == [] then [] else Apply(locations, Run(locations, tr[..|tr| - 1]), tr[|tr| - 1])
  }

  predicate SameRegion(a: Instance, b: Instance) {
    RegionOf(a.zone).Some? && RegionOf(a.zone) == RegionOf(b.zone)
  }

  ghost predicate AutoNamesDiffer(instances: seq<Instance>) {
    forall i, j |
      0 <= i < j < |instances| && instances[i].auto && instances[j].auto && SameRegion(instances[i], instances[j]) ::
      instances[i].fsname != instances[j].fsname
  }

  ghost predicate ZonesListed(locations: seq<string>, instances: seq<Instance>) {
    forall i | 0 <= i < |instances| :: instances[i].zone in locations
  }

  lemma ApplyKeepsNames(locations: seq<string>, instances: seq<Instance>, e: Event)
    requires AutoNamesDiffer(instances) && ZonesListed(locations, instances)
    requires e.Delete? || e.zone in locations
    ensures AutoNamesDiffer(Apply(locations, instances, e)) && ZonesListed(locations, Apply(locations, instances, e))
  {
    if e.CreateAuto? && Generated(instances, locations, e.zone, "", e.draws).Some? {
      forall i | 0 <= i < |instances| && RegionOf(instances[i].zone) == RegionOf(e.zone)
        ensures instances[i].fsname != Generated(instances, locations, e.zone, "", e.draws).value
      {
        GeneratedIsFresh(instances, locations, e.zone, e.draws, i);
      }
    }
  }

  /** Auto-named instances of one region that exist at the same time have different names. */
  lemma {:induction false} CoexistingAutoNamesDiffer(locations: seq<string>, tr: seq<Event>)
    requires forall e | e in tr :: e.Delete? || e.zone in locations
    ensures AutoNamesDiffer(Run(locations, tr)) && ZonesListed(locations, Run(locations, tr))
  {
    if tr != [] {
      CoexistingAutoNamesDiffer(locations, tr[..|tr| - 1]);
      ApplyKeepsNames(locations, Run(locations, tr[..|tr| - 1]), tr[|tr| - 1]);
    }
  }
}
