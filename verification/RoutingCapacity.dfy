/**
 How long the 153 tables last: a set-up does not run out while the occupied tables and the NICs
 without a table together number at most 153, and NICs that have a table need no further one.
 */
module RoutingCapacity {
  import opened Options
  import opened Cardinality
  import opened Routing
  import opened RoutingRuns

  const TABLES := LAST_TABLE - FIRST_TABLE + 1

  predicate Free(k: Kernel, t: int) {
    FirstRule(k.rules, t).None? && NoRoutes(k, t)
  }

  function Occupied(k: Kernel): set<int> {
    set t | FIRST_TABLE <= t <= LAST_TABLE && !Free(k, t)
  }

  ghost predicate HasTable(k: Kernel, ip: Ip) {
    exists t :: Owns(k, ip, t)
  }

  ghost function Homeless(k: Kernel, nics: seq<Ip>): set<Ip> {
    set ip | ip in nics && !HasTable(k, ip)
  }

  /** The tables that are occupied, and one for every NIC that still needs a table. */
  ghost function Needs(k: Kernel, nics: seq<Ip>): nat {
    |Occupied(k)| + |Homeless(k, nics)|
  }

  ghost predicate Room(k: Kernel, nics: seq<Ip>) {
    Needs(k, nics) <= 153
  }

  lemma FreeTableExists(k: Kernel) returns (t: int)
    requires |Occupied(k)| < TABLES
    ensures FIRST_TABLE <= t <= LAST_TABLE && Free(k, t)
  {
    var table := (i: nat) => FIRST_TABLE + i;
    var all := Image(table, TABLES);
    ImageCount(table, TABLES);
    if all <= Occupied(k) {
      SubsetIsSmaller(all, Occupied(k));
    }
    t :| t in all && t !in Occupied(k);
  }

  /** With room, a NIC finds a table. */
  lemma RoomMeansFound(links: map<Ip, string>, k: Kernel, nics: seq<Ip>, ip: Ip)
    requires Orderly(links, k) && ip in links && ip in nics && Room(k, nics)
    ensures FindFrom(k, FIRST_TABLE, ip).Some?
  {
    if HasTable(k, ip) {
      var t :| Owns(k, ip, t);
      SameTableAgain(links, k, ip, t);
    } else {
      assert ip in Homeless(k, nics);
      SubsetIsSmaller({ip}, Homeless(k, nics));
      var t := FreeTableExists(k);
      FindFromIsLeast(k, FIRST_TABLE, ip);
      assert Usable(k, t, ip);
    }
  }

  /** A set-up of one NIC touches no table but the one it found. */
  lemma NicSetUpOccupies(links: map<Ip, string>, k: Kernel, ip: Ip, a: Address, c: Calls)
    requires Orderly(links, k) && ip in links && FindFrom(k, FIRST_TABLE, ip).Some?
    ensures var (k', t) := (NicSetUp(k, ip, links[ip], a, c).0, FindFrom(k, FIRST_TABLE, ip).value);
            && Occupied(k) <= Occupied(k') <= Occupied(k) + {t}
            && (forall other: Ip | HasTable(k, other) :: HasTable(k', other))
  {
    var t := FindFrom(k, FIRST_TABLE, ip).value;
    var k1 := WithRoute(k, t, DstOf(a), links[ip]);
    forall u | u != t ensures Free(k1, u) <==> Free(k, u) {
      assert forall s: Slot | s.table == u :: s in k1.routes <==> s in k.routes;
    }
    forall u | u != t ensures Free(WithRule(k1, t, ip, c.at), u) <==> Free(k1, u) {
      InsertKeepsFirst(k1.rules, c.at, Rule(Some(ip), 32, t), u);
    }
    NicSetUpKeeps(links, k, ip, a, c);
    forall u | u in Occupied(k) ensures u in Occupied(NicSetUp(k, ip, links[ip], a, c).0) {
      OccupiedStays(k, NicSetUp(k, ip, links[ip], a, c).0, u);
    }
    forall other: Ip | HasTable(k, other) ensures HasTable(NicSetUp(k, ip, links[ip], a, c).0, other) {
      var u :| Owns(k, other, u);
      assert Owns(NicSetUp(k, ip, links[ip], a, c).0, other, u);
    }
  }

  lemma OccupiedStays(k: Kernel, k': Kernel, t: int)
    requires Grows(k, k') && !Free(k, t)
    ensures !Free(k', t)
  {
    if FirstRule(k.rules, t).Some? {
      assert FirstRule(k.rules, t).value in k'.rules;
    } else {
      var s :| s in k.routes && s.table == t;
      assert s in k'.routes;
    }
  }

  /** A NIC that has a table occupies no further one. */
  lemma SettledNicOccupies(links: map<Ip, string>, k: Kernel, ip: Ip, a: Address, c: Calls)
    requires Orderly(links, k) && ip in links && HasTable(k, ip)
    ensures Occupied(NicSetUp(k, ip, links[ip], a, c).0) == Occupied(k)
  {
    var t :| Owns(k, ip, t);
    SameTableAgain(links, k, ip, t);
    NicSetUpOccupies(links, k, ip, a, c);
    assert t in Occupied(k) by {
      assert FIRST_TABLE <= t <= LAST_TABLE && FirstRule(k.rules, t).Some?;
    }
    assert Occupied(k) + {t} == Occupied(k);
  }

  /** A NIC that is set up is no longer without a table, and no other becomes so. */
  lemma DoneIsHoused(links: map<Ip, string>, k: Kernel, nics: seq<Ip>, ip: Ip, a: Address, c: Calls)
    requires Orderly(links, k) && ip in links
    ensures NicSetUp(k, ip, links[ip], a, c).1.Done? ==>
              Homeless(NicSetUp(k, ip, links[ip], a, c).0, nics) <= Homeless(k, nics) - {ip}
  {
    if NicSetUp(k, ip, links[ip], a, c).1.Done? {
      NicSetUpOccupies(links, k, ip, a, c);
      NicSetUpKeeps(links, k, ip, a, c);
      assert HasTable(NicSetUp(k, ip, links[ip], a, c).0, ip);
    }
  }

  /** A NIC that is set up leaves as much room as it found. */
  lemma DoneKeepsNeeds(links: map<Ip, string>, k: Kernel, nics: seq<Ip>, ip: Ip, a: Address, c: Calls)
    requires Orderly(links, k) && ip in links && ip in nics
    ensures NicSetUp(k, ip, links[ip], a, c).1.Done? ==>
              Needs(NicSetUp(k, ip, links[ip], a, c).0, nics) <= Needs(k, nics)
  {
    var (k', r) := NicSetUp(k, ip, links[ip], a, c);
    if r.Done? {
      DoneIsHoused(links, k, nics, ip, a, c);
      SubsetIsSmaller(Homeless(k', nics), Homeless(k, nics) - {ip});
      if HasTable(k, ip) {
        SettledNicOccupies(links, k, ip, a, c);
      } else {
        assert ip in Homeless(k, nics);
        NicSetUpOccupies(links, k, ip, a, c);
        SubsetIsSmaller(Occupied(k'), Occupied(k) + {FindFrom(k, FIRST_TABLE, ip).value});
      }
    }
  }

  /** One that fails may leave a table behind that nobody may use. */
  lemma FailureStrandsOne(links: map<Ip, string>, k: Kernel, nics: seq<Ip>, ip: Ip, a: Address, c: Calls)
    requires Orderly(links, k) && ip in links && FindFrom(k, FIRST_TABLE, ip).Some?
    ensures Needs(NicSetUp(k, ip, links[ip], a, c).0, nics) <= Needs(k, nics) + 1
  {
    var (k', t) := (NicSetUp(k, ip, links[ip], a, c).0, FindFrom(k, FIRST_TABLE, ip).value);
    NicSetUpOccupies(links, k, ip, a, c);
    SubsetIsSmaller(Occupied(k'), Occupied(k) + {t});
    SubsetIsSmaller(Homeless(k', nics), Homeless(k, nics));
  }

  /** A set-up that starts with room never reports that the tables have run out. */
  lemma {:induction false} NeverExhausted(
    links: map<Ip, string>, k: Kernel, nics: seq<Ip>, rest: seq<Ip>, a: Address, calls: seq<Calls>)
    requires Orderly(links, k) && Covers(links, nics) && Room(k, nics) && |calls| == |rest|
    requires forall i | 0 <= i < |rest| :: rest[i] in nics && rest[i] in links
    ensures AllSetUp(k, links, rest, a, calls).1 != Some(Exhausted)
    decreases |rest|
  {
    if rest != [] {
      var (k1, r) := NicSetUp(k, rest[0], links[rest[0]], a, calls[0]);
      RoomMeansFound(links, k, nics, rest[0]);
      NicSetUpKeeps(links, k, rest[0], a, calls[0]);
      if r.Done? {
        DoneKeepsNeeds(links, k, nics, rest[0], a, calls[0]);
        NeverExhausted(links, k1, nics, rest[1..], a, calls[1..]);
      }
    }
  }

  /** Every call for the NIC succeeds. */
  predicate Works(c: Calls) {
    c.address && c.gateway && c.route && c.list && c.rule
  }

  lemma WorksIsDone(links: map<Ip, string>, k: Kernel, nics: seq<Ip>, ip: Ip, a: Address, c: Calls)
    requires Orderly(links, k) && ip in links && ip in nics && Room(k, nics) && Works(c) && !a.Invalid?
    ensures NicSetUp(k, ip, links[ip], a, c).1.Done?
  {
    RoomMeansFound(links, k, nics, ip);
  }

  /** With room, a set-up in which every call succeeds succeeds, for any address. */
  lemma {:induction false} SetUpSucceeds(
    links: map<Ip, string>, k: Kernel, nics: seq<Ip>, rest: seq<Ip>, a: Address, calls: seq<Calls>)
    requires Orderly(links, k) && Covers(links, nics) && Room(k, nics) && |calls| == |rest| && !a.Invalid?
    requires forall i | 0 <= i < |rest| :: rest[i] in nics && rest[i] in links && Works(calls[i])
    ensures AllSetUp(k, links, rest, a, calls).1 == None
    decreases |rest|
  {
    if rest != [] {
      var (k1, r) := NicSetUp(k, rest[0], links[rest[0]], a, calls[0]);
      WorksIsDone(links, k, nics, rest[0], a, calls[0]);
      NicSetUpKeeps(links, k, rest[0], a, calls[0]);
      DoneKeepsNeeds(links, k, nics, rest[0], a, calls[0]);
      SetUpSucceeds(links, k1, nics, rest[1..], a, calls[1..]);
    }
  }

  /** The tables are reported to have run out exactly when the NIC may use none of them. */
  lemma ExhaustedExactly(k: Kernel, ip: Ip, link: string, a: Address, c: Calls)
    ensures NicSetUp(k, ip, link, a, c) == (k, Exhausted) <==>
              c.address && forall t | 100 <= t <= 252 :: !Usable(k, t, ip)
  {
    FindFromIsLeast(k, FIRST_TABLE, ip);
  }

  /** Whatever the kernel, a NIC is set up only when the calls it needs succeed and the address is one. */
  lemma DoneNeedsCalls(k: Kernel, ip: Ip, link: string, a: Address, c: Calls)
    ensures var (k', r) := NicSetUp(k, ip, link, a, c);
            r.Done? ==> c.address && c.gateway && c.route && c.list && !a.Invalid?
                        && (c.rule || Rule(Some(ip), 32, r.table) in k.rules)
    ensures a.Invalid? || !c.address || !c.gateway ==> NicSetUp(k, ip, link, a, c).0 == k
  {
  }

  /** Once every NIC has a table, set-ups for any number of instances occupy no further table, whatever fails. */
  lemma {:induction false} NoFurtherTables(
    links: map<Ip, string>, k: Kernel, nics: seq<Ip>, a: Address, calls: seq<Calls>)
    requires Orderly(links, k) && Covers(links, nics) && |calls| == |nics|
    requires forall i | 0 <= i < |nics| :: HasTable(k, nics[i])
    ensures Occupied(AllSetUp(k, links, nics, a, calls).0) == Occupied(k)
    decreases |nics|
  {
    if nics != [] {
      var (k1, r) := NicSetUp(k, nics[0], links[nics[0]], a, calls[0]);
      var t :| Owns(k, nics[0], t);
      SameTableAgain(links, k, nics[0], t);
      NicSetUpOccupies(links, k, nics[0], a, calls[0]);
      NicSetUpKeeps(links, k, nics[0], a, calls[0]);
      assert Occupied(k) + {t} == Occupied(k);
      if r.Done? {
        NoFurtherTables(links, k1, nics[1..], a, calls[1..]);
      }
    }
  }

  /** The same over any sequence of set-ups, for any number of instances. */
  lemma {:induction false} RunNeedsNoFurtherTables(links: map<Ip, string>, nics: seq<Ip>, start: Kernel, tr: seq<Event>)
    requires Orderly(links, start) && Covers(links, nics) && forall e | e in tr :: e.SetUp?
    requires forall i | 0 <= i < |nics| :: HasTable(start, nics[i])
    ensures var k := Run(links, nics, start, tr).kernel;
            Orderly(links, k) && Grows(start, k) && Occupied(k) == Occupied(start)
  {
    if tr != [] {
      var k, e := Run(links, nics, start, tr[..|tr| - 1]).kernel, tr[|tr| - 1];
      RunNeedsNoFurtherTables(links, nics, start, tr[..|tr| - 1]);
      forall i | 0 <= i < |nics| ensures HasTable(k, nics[i]) {
        var t :| Owns(start, nics[i], t);
        assert Owns(k, nics[i], t);
      }
      if |e.calls| == |nics| {
        AllSetUpKeeps(links, k, nics, e.address, e.calls);
        NoFurtherTables(links, k, nics, e.address, e.calls);
      }
    }
  }

  // ---- set-ups that fail half-way ----

  /** The set-up fails at a NIC for which it has changed the kernel already: after the route was written. */
  predicate Strands(k: Kernel, links: map<Ip, string>, nics: seq<Ip>, a: Address, calls: seq<Calls>)
    requires |calls| == |nics| && Covers(links, nics)
    decreases |nics|
  {
    nics != [] &&
    var (k1, r) := NicSetUp(k, nics[0], links[nics[0]], a, calls[0]);
    if r.Done? then Strands(k1, links, nics[1..], a, calls[1..]) else k1 != k
  }

  lemma {:induction false} SetUpNeeds(
    links: map<Ip, string>, k: Kernel, nics: seq<Ip>, rest: seq<Ip>, a: Address, calls: seq<Calls>)
    requires Orderly(links, k) && |calls| == |rest| && Covers(links, rest)
    requires forall i | 0 <= i < |rest| :: rest[i] in nics
    ensures Needs(AllSetUp(k, links, rest, a, calls).0, nics) <=
              Needs(k, nics) + (if Strands(k, links, rest, a, calls) then 1 else 0)
    decreases |rest|
  {
    if rest != [] {
      var (k1, r) := NicSetUp(k, rest[0], links[rest[0]], a, calls[0]);
      NicSetUpKeeps(links, k, rest[0], a, calls[0]);
      if r.Done? {
        DoneKeepsNeeds(links, k, nics, rest[0], a, calls[0]);
        SetUpNeeds(links, k1, nics, rest[1..], a, calls[1..]);
      } else if k1 != k {
        FailureStrandsOne(links, k, nics, rest[0], a, calls[0]);
      }
    }
  }

  /** How many set-ups of a run failed half-way. */
  function Stranded(links: map<Ip, string>, nics: seq<Ip>, start: Kernel, tr: seq<Event>): nat
    requires Covers(links, nics)
  {
    if tr == [] then 0
    else
      var k, e := Run(links, nics, start, tr[..|tr| - 1]).kernel, tr[|tr| - 1];
      Stranded(links, nics, start, tr[..|tr| - 1]) +
      if e.SetUp? && |e.calls| == |nics| && Strands(k, links, nics, e.address, e.calls) then 1 else 0
  }

  /**
   Over any sequence of set-ups the occupied tables grow by at most the NICs without a table and the
   set-ups that failed half-way.
   */
  lemma {:induction false} RunNeeds(links: map<Ip, string>, nics: seq<Ip>, start: Kernel, tr: seq<Event>)
    requires Orderly(links, start) && Covers(links, nics) && forall e | e in tr :: e.SetUp?
    ensures var k := Run(links, nics, start, tr).kernel;
            && Orderly(links, k)
            && |Occupied(k)| <= Needs(k, nics)
            && Needs(k, nics) <= |Occupied(start)| + |Homeless(start, nics)| + Stranded(links, nics, start, tr)
  {
    if tr != [] {
      var k, e := Run(links, nics, start, tr[..|tr| - 1]).kernel, tr[|tr| - 1];
      RunNeeds(links, nics, start, tr[..|tr| - 1]);
      if |e.calls| == |nics| {
        AllSetUpKeeps(links, k, nics, e.address, e.calls);
        SetUpNeeds(links, k, nics, nics, e.address, e.calls);
      }
    }
  }

  /** So while that many tables are there, the next set-up does not report that they have run out. */
  lemma RunNeverExhausted(
    links: map<Ip, string>, nics: seq<Ip>, start: Kernel, tr: seq<Event>, a: Address, calls: seq<Calls>)
    requires Orderly(links, start) && Covers(links, nics) && |calls| == |nics| && forall e | e in tr :: e.SetUp?
    requires Needs(start, nics) + Stranded(links, nics, start, tr) <= TABLES
    ensures AllSetUp(Run(links, nics, start, tr).kernel, links, nics, a, calls).1 != Some(Exhausted)
  {
    RunNeeds(links, nics, start, tr);
    NeverExhausted(links, Run(links, nics, start, tr).kernel, nics, nics, a, calls);
  }
}
