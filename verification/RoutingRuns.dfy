/**
 What the routing tables keep over any sequence of set-ups, failed ones included: NICs do not
 share tables, a NIC keeps its table, foreign tables are not written, and instances stay routed.
 Set-ups do not overlap; no lock covers two of them.
 */
module RoutingRuns {
  import opened Options
  import opened Routing

  /** The NIC has a rule that points to the table. */
  predicate Owns(k: Kernel, ip: Ip, t: int) {
    exists r :: r in k.rules && r.table == t && r.src == Some(ip)
  }

  /** All rules of a table with a rule for a NIC are for that NIC, and exact. */
  ghost predicate RulesPure(links: map<Ip, string>, k: Kernel) {
    forall r, s | r in k.rules && s in k.rules && r.table == s.table && r.src.Some? && r.src.value in links ::
      s.src == r.src && r.bits == 32
  }

  /** All routes in a NIC's table are the driver's, out of that NIC's link. */
  ghost predicate RoutesPure(links: map<Ip, string>, k: Kernel) {
    forall ip, s | ip in links && s in k.routes && Owns(k, ip, s.table) :: k.routes[s] == Via(links[ip], true)
  }

  /** A NIC's table is the first one it may use. */
  ghost predicate FirstFit(links: map<Ip, string>, k: Kernel) {
    forall ip, t | ip in links && Owns(k, ip, t) ::
      FIRST_TABLE <= t <= LAST_TABLE && forall u | FIRST_TABLE <= u < t :: !Usable(k, u, ip)
  }

  ghost predicate Orderly(links: map<Ip, string>, k: Kernel) {
    RulesPure(links, k) && RoutesPure(links, k) && FirstFit(links, k)
  }

  lemma {:induction false} FindFromIsLeast(k: Kernel, t: int, ip: Ip)
    ensures var r := FindFrom(k, t, ip);
            && (r.Some? ==> t <= r.value <= LAST_TABLE && Usable(k, r.value, ip)
                            && forall u | t <= u < r.value :: !Usable(k, u, ip))
            && (r.None? ==> forall u | t <= u <= LAST_TABLE :: !Usable(k, u, ip))
    decreases LAST_TABLE + 1 - t
  {
    if t <= LAST_TABLE && !Usable(k, t, ip) {
      FindFromIsLeast(k, t + 1, ip);
    }
  }

  /** In an orderly kernel a NIC may use exactly its own table and the tables with no rule and no route. */
  lemma UsableMeans(links: map<Ip, string>, k: Kernel, t: int, ip: Ip)
    requires RulesPure(links, k) && ip in links
    ensures Usable(k, t, ip) <==> Owns(k, ip, t) || (FirstRule(k.rules, t).None? && NoRoutes(k, t))
  {
    var first := FirstRule(k.rules, t);
    if first.None? {
      forall r | r in k.rules ensures r.table != t {}
    }
  }

  // ---- no sharing, and the same table every time ----

  lemma NoSharedTables(links: map<Ip, string>, k: Kernel, a: Ip, b: Ip, t: int)
    requires Orderly(links, k) && a in links && Owns(k, a, t) && Owns(k, b, t)
    ensures a == b
  {
  }

  /** A NIC that owns a table is given that table. */
  lemma SameTableAgain(links: map<Ip, string>, k: Kernel, ip: Ip, t: int)
    requires Orderly(links, k) && ip in links && Owns(k, ip, t)
    ensures FindFrom(k, FIRST_TABLE, ip) == Some(t)
  {
    FindFromIsLeast(k, FIRST_TABLE, ip);
    UsableMeans(links, k, t, ip);
  }

  /** So it owns no other. */
  lemma OwnsOne(links: map<Ip, string>, k: Kernel, ip: Ip, t: int, u: int)
    requires Orderly(links, k) && ip in links && Owns(k, ip, t) && Owns(k, ip, u)
    ensures t == u
  {
    SameTableAgain(links, k, ip, t);
    SameTableAgain(links, k, ip, u);
  }

  // ---- one write at a time ----

  /**
   The NIC may write to the table: it is the first one it may use, nothing in it is anybody else's,
   and the NIC owns no other table.
   */
  ghost predicate Claim(links: map<Ip, string>, k: Kernel, t: int, ip: Ip) {
    && ip in links && FIRST_TABLE <= t <= LAST_TABLE
    && (forall u | FIRST_TABLE <= u < t :: !Usable(k, u, ip))
    && (forall s | s in k.routes && s.table == t :: k.routes[s] == Via(links[ip], true))
    && (forall r | r in k.rules && r.table == t :: r == Rule(Some(ip), 32, t))
    && (forall u | Owns(k, ip, u) :: u == t)
  }

  lemma FoundIsClaimed(links: map<Ip, string>, k: Kernel, t: int, ip: Ip)
    requires Orderly(links, k) && ip in links && FindFrom(k, FIRST_TABLE, ip) == Some(t)
    ensures Claim(links, k, t, ip)
  {
    FindFromIsLeast(k, FIRST_TABLE, ip);
    UsableMeans(links, k, t, ip);
    forall u | Owns(k, ip, u) ensures u == t {
      SameTableAgain(links, k, ip, u);
    }
    forall r | r in k.rules && r.table == t ensures r == Rule(Some(ip), 32, t) {
      assert FirstRule(k.rules, t).Some? && Owns(k, ip, t);
    }
  }

  lemma WithRouteKeepsUnusable(k: Kernel, t: int, dst: Dst, link: string, u: int, ip: Ip)
    requires !Usable(k, u, ip)
    ensures !Usable(WithRoute(k, t, dst, link), u, ip)
  {
    if FirstRule(k.rules, u).None? {
      var s :| s in k.routes && s.table == u;
      assert s in WithRoute(k, t, dst, link).routes;
    }
  }

  lemma WithRouteKeeps(links: map<Ip, string>, k: Kernel, t: int, ip: Ip, dst: Dst)
    requires Orderly(links, k) && Claim(links, k, t, ip)
    ensures var k' := WithRoute(k, t, dst, links[ip]); Orderly(links, k') && Claim(links, k', t, ip)
  {
    var k' := WithRoute(k, t, dst, links[ip]);
    forall u, other | !Usable(k, u, other) ensures !Usable(k', u, other) {
      WithRouteKeepsUnusable(k, t, dst, links[ip], u, other);
    }
    assert forall other, u :: Owns(k', other, u) <==> Owns(k, other, u);
  }

  lemma InsertMembers(rules: seq<Rule>, at: nat, new_: Rule, r: Rule)
    ensures r in InsertRule(rules, at, new_) <==> r in rules || r == new_
  {
    if at <= |rules| {
      assert rules == rules[..at] + rules[at..];
    }
  }

  lemma {:induction false} FirstRuleConcat(a: seq<Rule>, b: seq<Rule>, t: int)
    ensures FirstRule(a + b, t) == if FirstRule(a, t).Some? then FirstRule(a, t) else FirstRule(b, t)
  {
    if a == [] {
      assert a + b == b;
    } else {
      FirstRuleConcat(a[1..], b, t);
      assert (a + b)[1..] == a[1..] + b;
    }
  }

  lemma InsertKeepsFirst(rules: seq<Rule>, at: nat, r: Rule, t: int)
    requires r.table != t
    ensures FirstRule(InsertRule(rules, at, r), t) == FirstRule(rules, t)
  {
    if at <= |rules| {
      assert rules == rules[..at] + rules[at..];
      FirstRuleConcat(rules[..at], rules[at..], t);
      FirstRuleConcat(rules[..at] + [r], rules[at..], t);
      FirstRuleConcat(rules[..at], [r], t);
    } else {
      FirstRuleConcat(rules, [r], t);
    }
  }

  lemma WithRuleOwners(k: Kernel, t: int, ip: Ip, at: nat, other: Ip, u: int)
    ensures Owns(WithRule(k, t, ip, at), other, u) <==> Owns(k, other, u) || (other == ip && u == t)
  {
    var new_, k' := Rule(Some(ip), 32, t), WithRule(k, t, ip, at);
    forall r ensures r in k'.rules <==> r in k.rules || r == new_ {
      InsertMembers(k.rules, at, new_, r);
    }
    assert new_ in k'.rules;
  }

  /** Below and above the table nothing changes; the table itself is closed to every other NIC. */
  lemma WithRuleUsable(links: map<Ip, string>, k: Kernel, t: int, ip: Ip, at: nat, u: int, other: Ip)
    requires Claim(links, k, t, ip)
    ensures u != t ==> (Usable(WithRule(k, t, ip, at), u, other) <==> Usable(k, u, other))
    ensures other != ip ==> !Usable(WithRule(k, t, ip, at), t, other)
  {
    var new_, k' := Rule(Some(ip), 32, t), WithRule(k, t, ip, at);
    if u != t {
      InsertKeepsFirst(k.rules, at, new_, u);
    }
    InsertMembers(k.rules, at, new_, new_);
    var first := FirstRule(k'.rules, t);
    var i :| 0 <= i < |k'.rules| && k'.rules[i] == new_;
    InsertMembers(k.rules, at, new_, first.value);
  }

  lemma WithRuleKeeps(links: map<Ip, string>, k: Kernel, t: int, ip: Ip, at: nat)
    requires Orderly(links, k) && Claim(links, k, t, ip)
    ensures Orderly(links, WithRule(k, t, ip, at)) && Owns(WithRule(k, t, ip, at), ip, t)
  {
    var new_, k' := Rule(Some(ip), 32, t), WithRule(k, t, ip, at);
    forall r ensures r in k'.rules <==> r in k.rules || r == new_ {
      InsertMembers(k.rules, at, new_, r);
    }
    forall other, u ensures Owns(k', other, u) <==> Owns(k, other, u) || (other == ip && u == t) {
      WithRuleOwners(k, t, ip, at, other, u);
    }
    forall other, u | other in links && Owns(k', other, u)
      ensures FIRST_TABLE <= u <= LAST_TABLE && forall v | FIRST_TABLE <= v < u :: !Usable(k', v, other)
    {
      forall v | FIRST_TABLE <= v < u ensures !Usable(k', v, other) {
        WithRuleUsable(links, k, t, ip, at, v, other);
      }
    }
  }

  // ---- one NIC ----

  ghost predicate NicOk(links: map<Ip, string>, k: Kernel, k': Kernel, ip: Ip, a: Address, r: Result) {
    && Orderly(links, k')
    && (r.Done? ==> Owns(k', ip, r.table) && Slot(r.table, DstOf(a)) in k'.routes)
  }

  /** Nothing is taken away: every rule stays, and every route that is replaced keeps its slot. */
  ghost predicate Grows(k: Kernel, k': Kernel) {
    && (forall r | r in k.rules :: r in k'.rules)
    && (forall s | s in k.routes :: s in k'.routes)
  }

  lemma NicSetUpKeeps(links: map<Ip, string>, k: Kernel, ip: Ip, a: Address, c: Calls)
    requires Orderly(links, k) && ip in links
    ensures var (k', r) := NicSetUp(k, ip, links[ip], a, c); NicOk(links, k, k', ip, a, r) && Grows(k, k')
  {
    var found := FindFrom(k, FIRST_TABLE, ip);
    if found.Some? {
      var t := found.value;
      FoundIsClaimed(links, k, t, ip);
      WithRouteKeeps(links, k, t, ip, DstOf(a));
      var k1 := WithRoute(k, t, DstOf(a), links[ip]);
      WithRuleKeeps(links, k1, t, ip, c.at);
      forall r | r in k1.rules ensures r in WithRule(k1, t, ip, c.at).rules {
        InsertMembers(k1.rules, c.at, Rule(Some(ip), 32, t), r);
      }
    }
  }

  /** A table with an entry that is not the driver's. */
  ghost predicate Foreign(links: map<Ip, string>, k: Kernel, t: int) {
    || (exists r :: r in k.rules && r.table == t && (r.src.None? || r.src.value !in links))
    || (exists s :: s in k.routes && s.table == t && !k.routes[s].ours)
  }

  ghost predicate SameTable(k: Kernel, k': Kernel, t: int) {
    && (forall r: Rule | r.table == t :: r in k.rules <==> r in k'.rules)
    && (forall s: Slot | s.table == t ::
          (s in k.routes <==> s in k'.routes) && (s in k.routes ==> k.routes[s] == k'.routes[s]))
  }

  /** A table with foreign rules or routes is not written. */
  lemma NicLeavesForeign(links: map<Ip, string>, k: Kernel, ip: Ip, a: Address, c: Calls, t: int)
    requires Orderly(links, k) && ip in links && Foreign(links, k, t)
    ensures SameTable(k, NicSetUp(k, ip, links[ip], a, c).0, t)
  {
    var found := FindFrom(k, FIRST_TABLE, ip);
    if found.Some? {
      FoundIsClaimed(links, k, found.value, ip);
      assert found.value != t;
      var k1 := WithRoute(k, found.value, DstOf(a), links[ip]);
      forall r: Rule | r.table == t
        ensures r in k1.rules <==> r in WithRule(k1, found.value, ip, c.at).rules
      {
        InsertMembers(k1.rules, c.at, Rule(Some(ip), 32, found.value), r);
      }
    }
  }

  // ---- all NICs ----

  predicate Covers(links: map<Ip, string>, nics: seq<Ip>) {
    forall i | 0 <= i < |nics| :: nics[i] in links
  }

  /** The NIC's own table has a route to the /16 network, out of the NIC's link. */
  ghost predicate Routed(links: map<Ip, string>, k: Kernel, ip: Ip, dst: Dst) {
    ip in links &&
    exists t :: Owns(k, ip, t) && Slot(t, dst) in k.routes && k.routes[Slot(t, dst)] == Via(links[ip], true)
  }

  lemma GrowsKeepsRouted(links: map<Ip, string>, k: Kernel, k': Kernel, ip: Ip, dst: Dst)
    requires Grows(k, k') && Orderly(links, k') && Routed(links, k, ip, dst)
    ensures Routed(links, k', ip, dst)
  {
    var t :| Owns(k, ip, t) && Slot(t, dst) in k.routes;
    assert Owns(k', ip, t);
  }

  lemma NicSetUpRoutes(links: map<Ip, string>, k: Kernel, ip: Ip, a: Address, c: Calls)
    requires Orderly(links, k) && ip in links
    ensures var (k', r) := NicSetUp(k, ip, links[ip], a, c);
            Orderly(links, k') && Grows(k, k') && (r.Done? ==> Routed(links, k', ip, DstOf(a)))
  {
    NicSetUpKeeps(links, k, ip, a, c);
  }

  /** What a set-up of some NICs achieves, and what it keeps. */
  ghost predicate SetUpOk(
    links: map<Ip, string>, k: Kernel, k': Kernel, nics: seq<Ip>, dst: Dst, failure: Option<Result>)
  {
    && Orderly(links, k') && Grows(k, k')
    && (failure.None? ==> forall i | 0 <= i < |nics| :: Routed(links, k', nics[i], dst))
  }

  lemma SetUpOkCons(
    links: map<Ip, string>, k: Kernel, k1: Kernel, k': Kernel, nics: seq<Ip>, dst: Dst, failure: Option<Result>)
    requires nics != [] && Grows(k, k1) && Routed(links, k1, nics[0], dst)
    requires SetUpOk(links, k1, k', nics[1..], dst, failure)
    ensures SetUpOk(links, k, k', nics, dst, failure)
  {
    GrowsKeepsRouted(links, k1, k', nics[0], dst);
    forall i | 0 <= i < |nics| && failure.None? ensures Routed(links, k', nics[i], dst) {
      if i > 0 {
        assert nics[i] == nics[1..][i - 1];
      }
    }
  }

  lemma {:induction false} AllSetUpKeeps(
    links: map<Ip, string>, k: Kernel, nics: seq<Ip>, a: Address, calls: seq<Calls>)
    requires Orderly(links, k) && Covers(links, nics) && |calls| == |nics|
    ensures var (k', failure) := AllSetUp(k, links, nics, a, calls); SetUpOk(links, k, k', nics, DstOf(a), failure)
    decreases |nics|
  {
    if nics != [] {
      var (k1, r) := NicSetUp(k, nics[0], links[nics[0]], a, calls[0]);
      NicSetUpRoutes(links, k, nics[0], a, calls[0]);
      if r.Done? {
        AllSetUpKeeps(links, k1, nics[1..], a, calls[1..]);
        var (k', failure) := AllSetUp(k1, links, nics[1..], a, calls[1..]);
        SetUpOkCons(links, k, k1, k', nics, DstOf(a), failure);
      }
    }
  }

  lemma {:induction false} AllSetUpLeavesForeign(
    links: map<Ip, string>, k: Kernel, nics: seq<Ip>, a: Address, calls: seq<Calls>, t: int)
    requires Orderly(links, k) && Covers(links, nics) && |calls| == |nics| && Foreign(links, k, t)
    ensures SameTable(k, AllSetUp(k, links, nics, a, calls).0, t)
    decreases |nics|
  {
    if nics != [] {
      var (k1, r) := NicSetUp(k, nics[0], links[nics[0]], a, calls[0]);
      NicLeavesForeign(links, k, nics[0], a, calls[0], t);
      NicSetUpKeeps(links, k, nics[0], a, calls[0]);
      if r.Done? {
        SameTableKeepsForeign(links, k, k1, t);
        AllSetUpLeavesForeign(links, k1, nics[1..], a, calls[1..], t);
      }
    }
  }

  lemma SameTableKeepsForeign(links: map<Ip, string>, k: Kernel, k': Kernel, t: int)
    requires SameTable(k, k', t) && Foreign(links, k, t)
    ensures Foreign(links, k', t)
  {
    if r :| r in k.rules && r.table == t && (r.src.None? || r.src.value !in links) {
      assert r in k'.rules;
    } else {
      var s :| s in k.routes && s.table == t && !k.routes[s].ours;
      assert s in k'.routes;
    }
  }

  // ---- runs ----

  /** done: the instance addresses every NIC was set up for. */
  datatype World = World(kernel: Kernel, done: set<Address>)

  datatype Event =
    | SetUp(address: Address, calls: seq<Calls>)
    | OtherRule(rule: Rule, at: nat)
    | OtherRoute(slot: Slot, link: string)

  function Apply(links: map<Ip, string>, nics: seq<Ip>, w: World, e: Event): World
    requires Covers(links, nics)
  {
    match e
    case SetUp(a, calls) =>
      if |calls| != |nics| then w
      else
        var (k, failure) := AllSetUp(w.kernel, links, nics, a, calls);
        World(k, if failure.None? then w.done + {a} else w.done)
    case OtherRule(r, at) => w.(kernel := w.kernel.(rules := InsertRule(w.kernel.rules, at, r)))
    case OtherRoute(slot, link) => w.(kernel := w.kernel.(routes := w.kernel.routes[slot := Via(link, false)]))
  }

  /** Others do not use a NIC's address in their rules, and keep out of the tables of the NICs. */
  ghost predicate Polite(links: map<Ip, string>, k: Kernel, e: Event) {
    match e
    case SetUp(_, _) => true
    case OtherRule(r, _) => (r.src.None? || r.src.value !in links) && forall ip | ip in links :: !Owns(k, ip, r.table)
    case OtherRoute(slot, _) => forall ip | ip in links :: !Owns(k, ip, slot.table)
  }

  function Run(links: map<Ip, string>, nics: seq<Ip>, start: Kernel, tr: seq<Event>): World
    requires Covers(links, nics)
  {
    if tr == [] then World(start, {}) else Apply(links, nics, Run(links, nics, start, tr[..|tr| - 1]), tr[|tr| - 1])
  }

  ghost predicate AllPolite(links: map<Ip, string>, nics: seq<Ip>, start: Kernel, tr: seq<Event>)
    requires Covers(links, nics)
  {
    forall i | 0 <= i < |tr| :: Polite(links, Run(links, nics, start, tr[..i]).kernel, tr[i])
  }

  lemma OtherRuleKeeps(links: map<Ip, string>, k: Kernel, rule: Rule, at: nat)
    requires Orderly(links, k) && Polite(links, k, OtherRule(rule, at))
    ensures var k' := k.(rules := InsertRule(k.rules, at, rule)); Orderly(links, k') && Grows(k, k')
  {
    var k' := k.(rules := InsertRule(k.rules, at, rule));
    forall r ensures r in k'.rules <==> r in k.rules || r == rule {
      InsertMembers(k.rules, at, rule, r);
    }
    forall ip, t | ip in links ensures Owns(k', ip, t) <==> Owns(k, ip, t) {}
    forall ip, u | ip in links && !Usable(k, u, ip) ensures !Usable(k', u, ip) {
      if u == rule.table {
        UsableMeans(links, k, u, ip);
        OtherRuleCloses(links, k, rule, at, ip);
      } else {
        InsertKeepsFirst(k.rules, at, rule, u);
      }
    }
  }

  lemma OtherRuleCloses(links: map<Ip, string>, k: Kernel, rule: Rule, at: nat, ip: Ip)
    requires ip in links && (rule.src.None? || rule.src.value !in links) && !Owns(k, ip, rule.table)
    ensures !Usable(k.(rules := InsertRule(k.rules, at, rule)), rule.table, ip)
  {
    var rules := InsertRule(k.rules, at, rule);
    InsertMembers(k.rules, at, rule, rule);
    var i :| 0 <= i < |rules| && rules[i] == rule;
    var first := FirstRule(rules, rule.table);
    InsertMembers(k.rules, at, rule, first.value);
  }

  lemma OtherRouteKeeps(links: map<Ip, string>, k: Kernel, slot: Slot, link: string)
    requires Orderly(links, k) && Polite(links, k, OtherRoute(slot, link))
    ensures var k' := k.(routes := k.routes[slot := Via(link, false)]); Orderly(links, k') && Grows(k, k')
  {
    var k' := k.(routes := k.routes[slot := Via(link, false)]);
    forall u, ip | !Usable(k, u, ip) ensures !Usable(k', u, ip) {
      if FirstRule(k.rules, u).None? {
        var s :| s in k.routes && s.table == u;
        assert s in k'.routes;
      }
    }
    assert forall ip, t :: Owns(k', ip, t) <==> Owns(k, ip, t);
  }

  lemma ApplyKeeps(links: map<Ip, string>, nics: seq<Ip>, w: World, e: Event)
    requires Covers(links, nics) && Orderly(links, w.kernel) && Polite(links, w.kernel, e)
    ensures var w' := Apply(links, nics, w, e);
            && Orderly(links, w'.kernel) && Grows(w.kernel, w'.kernel)
            && forall a, i | a in w'.done && a !in w.done && 0 <= i < |nics| ::
                 Routed(links, w'.kernel, nics[i], DstOf(a))
  {
    match e
    case SetUp(a, calls) => if |calls| == |nics| { AllSetUpKeeps(links, w.kernel, nics, a, calls); }
    case OtherRule(r, at) => OtherRuleKeeps(links, w.kernel, r, at);
    case OtherRoute(slot, link) => OtherRouteKeeps(links, w.kernel, slot, link);
  }

  /**
   Over any sequence of set-ups, failed ones included, beside polite others: the kernel stays orderly, so NICs do
   not share tables and keep theirs; and every instance set up so far is still routed for every NIC.
   */
  lemma {:induction false} RunStaysRouted(links: map<Ip, string>, nics: seq<Ip>, start: Kernel, tr: seq<Event>)
    requires Covers(links, nics) && Orderly(links, start) && AllPolite(links, nics, start, tr)
    ensures Orderly(links, Run(links, nics, start, tr).kernel)
    ensures forall a, i | a in Run(links, nics, start, tr).done && 0 <= i < |nics| ::
              Routed(links, Run(links, nics, start, tr).kernel, nics[i], DstOf(a))
  {
    if tr != [] {
      var init, e := tr[..|tr| - 1], tr[|tr| - 1];
      assert forall i | 0 <= i < |init| :: init[..i] == tr[..i];
      RunStaysRouted(links, nics, start, init);
      var w, w' := Run(links, nics, start, init), Run(links, nics, start, tr);
      assert Polite(links, w.kernel, e);
      ApplyKeeps(links, nics, w, e);
      forall a, i | a in w'.done && 0 <= i < |nics| ensures Routed(links, w'.kernel, nics[i], DstOf(a)) {
        if a in w.done {
          GrowsKeepsRouted(links, w.kernel, w'.kernel, nics[i], DstOf(a));
        }
      }
    }
  }

  /** The address lies in the /16 network. */
  predicate Contains(p: nat, ip: Ip) {
    p * 65536 <= ip < (p + 1) * 65536
  }

  /** The route that is written for an IPv4 address is to the /16 network the address lies in. */
  lemma DestinationContains(ip: Ip)
    ensures exists p: nat :: DstOf(V4(ip)) == Net(p, 16) && Contains(p, ip)
  {
    assert DstOf(V4(ip)) == Net(ip / 65536, 16);
  }

  /**
   After any run, for every IPv4 instance that was set up and every NIC, the NIC's own table has a route out of its
   link to a /16 network in which the instance lies.
   */
  lemma InstancesStayReachable(
    links: map<Ip, string>, nics: seq<Ip>, start: Kernel, tr: seq<Event>, ip: Ip, i: nat)
    requires Covers(links, nics) && Orderly(links, start) && AllPolite(links, nics, start, tr)
    requires V4(ip) in Run(links, nics, start, tr).done && i < |nics|
    ensures exists p: nat :: Contains(p, ip) && Routed(links, Run(links, nics, start, tr).kernel, nics[i], Net(p, 16))
  {
    RunStaysRouted(links, nics, start, tr);
    DestinationContains(ip);
    var p: nat :| DstOf(V4(ip)) == Net(p, 16) && Contains(p, ip);
    assert Routed(links, Run(links, nics, start, tr).kernel, nics[i], DstOf(V4(ip)));
  }

  /** An IPv6 instance is reached by the default route of the NIC's own table. */
  lemma V6StaysReachable(links: map<Ip, string>, nics: seq<Ip>, start: Kernel, tr: seq<Event>, i: nat)
    requires Covers(links, nics) && Orderly(links, start) && AllPolite(links, nics, start, tr)
    requires V6 in Run(links, nics, start, tr).done && i < |nics|
    ensures Routed(links, Run(links, nics, start, tr).kernel, nics[i], Default)
  {
    RunStaysRouted(links, nics, start, tr);
    assert Routed(links, Run(links, nics, start, tr).kernel, nics[i], DstOf(V6));
  }

  /** After any run the table of a NIC is between 100 and 252, and a NIC on an empty kernel is given 100. */
  lemma TablesAreInRange(links: map<Ip, string>, nics: seq<Ip>, start: Kernel, tr: seq<Event>, ip: Ip, t: int)
    requires Covers(links, nics) && Orderly(links, start) && AllPolite(links, nics, start, tr) && ip in links
    ensures Owns(Run(links, nics, start, tr).kernel, ip, t) ==> 100 <= t <= 252
    ensures FindFrom(Kernel([], map[]), FIRST_TABLE, ip) == Some(100)
  {
    RunStaysRouted(links, nics, start, tr);
  }

  /** A kernel with foreign entries only is a place to start from. */
  lemma ForeignKernelIsOrderly(links: map<Ip, string>, k: Kernel)
    requires forall r | r in k.rules :: r.src.None? || r.src.value !in links
    ensures Orderly(links, k)
  {
  }

  lemma AllPoliteTake(links: map<Ip, string>, nics: seq<Ip>, start: Kernel, tr: seq<Event>, n: nat)
    requires Covers(links, nics) && AllPolite(links, nics, start, tr) && n <= |tr|
    ensures AllPolite(links, nics, start, tr[..n])
  {
    assert forall i | 0 <= i < n :: tr[..n][..i] == tr[..i];
  }

  /** No set-up of any run, failed or not, writes to a table that holds a foreign rule or route at that time. */
  lemma ForeignTablesAreLeftAlone(links: map<Ip, string>, nics: seq<Ip>, start: Kernel, tr: seq<Event>, i: nat, t: int)
    requires Covers(links, nics) && Orderly(links, start) && AllPolite(links, nics, start, tr)
    requires i < |tr| && tr[i].SetUp? && Foreign(links, Run(links, nics, start, tr[..i]).kernel, t)
    ensures SameTable(Run(links, nics, start, tr[..i]).kernel, Run(links, nics, start, tr[..i + 1]).kernel, t)
  {
    AllPoliteTake(links, nics, start, tr, i);
    RunStaysRouted(links, nics, start, tr[..i]);
    assert tr[..i + 1][..i] == tr[..i];
    var k, e := Run(links, nics, start, tr[..i]).kernel, tr[i];
    if |e.calls| == |nics| {
      AllSetUpLeavesForeign(links, k, nics, e.address, e.calls, t);
    }
  }

  /** After any run, a NIC owns at most one table. */
  lemma OneTablePerNic(links: map<Ip, string>, nics: seq<Ip>, start: Kernel, tr: seq<Event>, ip: Ip, t: int, u: int)
    requires Covers(links, nics) && Orderly(links, start) && AllPolite(links, nics, start, tr) && ip in links
    requires var k := Run(links, nics, start, tr).kernel; Owns(k, ip, t) && Owns(k, ip, u)
    ensures t == u
  {
    RunStaysRouted(links, nics, start, tr);
    OwnsOne(links, Run(links, nics, start, tr).kernel, ip, t, u);
  }

  /** After any run, two NICs with different addresses have different tables. */
  lemma NicsNeverShare(links: map<Ip, string>, nics: seq<Ip>, start: Kernel, tr: seq<Event>, a: Ip, b: Ip, t: int)
    requires Covers(links, nics) && Orderly(links, start) && AllPolite(links, nics, start, tr) && a in links && a != b
    ensures var k := Run(links, nics, start, tr).kernel; !(Owns(k, a, t) && Owns(k, b, t))
  {
    var k := Run(links, nics, start, tr).kernel;
    RunStaysRouted(links, nics, start, tr);
    if Owns(k, a, t) && Owns(k, b, t) {
      NoSharedTables(links, k, a, b, t);
    }
  }

  /** A table a NIC owned at some point of a run is the one it still owns, and is given again, at the end. */
  lemma {:induction false} TableIsKept(
    links: map<Ip, string>, nics: seq<Ip>, start: Kernel, tr: seq<Event>, n: nat, ip: Ip, t: int)
    requires Covers(links, nics) && Orderly(links, start) && AllPolite(links, nics, start, tr)
    requires n <= |tr| && ip in links && Owns(Run(links, nics, start, tr[..n]).kernel, ip, t)
    ensures var k := Run(links, nics, start, tr).kernel; Owns(k, ip, t) && FindFrom(k, FIRST_TABLE, ip) == Some(t)
  {
    RunStaysRouted(links, nics, start, tr);
    if n < |tr| {
      var init := tr[..|tr| - 1];
      assert forall i | 0 <= i <= |init| :: init[..i] == tr[..i];
      TableIsKept(links, nics, start, init, n, ip, t);
      RunStaysRouted(links, nics, start, init);
      assert Polite(links, Run(links, nics, start, tr[..|tr| - 1]).kernel, tr[|tr| - 1]);
      ApplyKeeps(links, nics, Run(links, nics, start, init), tr[|tr| - 1]);
    } else {
      assert tr[..n] == tr;
    }
    SameTableAgain(links, Run(links, nics, start, tr).kernel, ip, t);
  }
}
