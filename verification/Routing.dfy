/**
 Policy routing for additional NICs (pkg/network/network.go, setUpMultiNIC in pkg/csi_driver/node.go):
 each NIC gets a routing table of its own between 100 and 252, found by first fit and recognised
 again by the source IP of its rule. The kernel's rules and routes are the state.
 */
module Routing {
  import opened Options

  type Ip = nat

  const FIRST_TABLE := 100
  const LAST_TABLE := 252

  datatype Rule = Rule(src: Option<Ip>, bits: nat, table: int)

  /** A destination network, or the default route. */
  datatype Dst = Default | Net(prefix: nat, bits: nat)

  datatype Slot = Slot(table: int, dst: Dst)

  /** ours: the route was written by the driver. */
  datatype Via = Via(link: string, ours: bool)

  datatype Kernel = Kernel(rules: seq<Rule>, routes: map<Slot, Via>)

  /** The address of a Lustre instance, as net.ParseIP sees it. */
  datatype Address = Invalid | V4(ip: Ip) | V6

  /** The /16 network of an IPv4 address. An IPv6 address has no /16 mask, and ends up as the default route. */
  function DstOf(a: Address): Dst {
    if a.V4? then Net(a.ip / 65536, 16) else Default
  }

  // ---- which tables a NIC may use ----

  function FirstRule(rules: seq<Rule>, t: int): (r: Option<Rule>)
    ensures r.Some? ==> r.value in rules && r.value.table == t
    ensures r.None? <==> forall i | 0 <= i < |rules| :: rules[i].table != t
  {
    if rules == [] then None
    else if rules[0].table == t then Some(rules[0])
    else
      var r := FirstRule(rules[1..], t);
      assert forall i | 1 <= i < |rules| :: rules[i] == rules[1..][i - 1];
      r
  }

  predicate NoRoutes(k: Kernel, t: int) {
    forall s | s in k.routes :: s.table != t
  }

  /** Only the first rule of a table counts; a table without rules must have no routes either. */
  predicate Usable(k: Kernel, t: int, ip: Ip) {
    var r := FirstRule(k.rules, t);
    if r.Some? then r.value.src == Some(ip) else NoRoutes(k, t)
  }

  function FindFrom(k: Kernel, t: int, ip: Ip): Option<int>
    decreases LAST_TABLE + 1 - t
  {
    if t > LAST_TABLE then None
    else if Usable(k, t, ip) then Some(t)
    else FindFrom(k, t + 1, ip)
  }

  lemma {:induction false} FirstRuleSkips(rules: seq<Rule>, t: int, n: nat)
    requires n <= |rules| && forall j | 0 <= j < n :: rules[j].table != t
    ensures FirstRule(rules, t) == FirstRule(rules[n..], t)
  {
    if n > 0 {
      FirstRuleSkips(rules[1..], t, n - 1);
      assert rules[1..][n - 1..] == rules[n..];
    } else {
      assert rules[0..] == rules;
    }
  }

  method IsTableFree(k: Kernel, t: int, ip: Ip) returns (free: bool)
    ensures free <==> Usable(k, t, ip)
  {
    for i := 0 to |k.rules|
      invariant forall j | 0 <= j < i :: k.rules[j].table != t
    {
      if k.rules[i].table == t {
        FirstRuleSkips(k.rules, t, i);
        return k.rules[i].src == Some(ip);
      }
    }
    return NoRoutes(k, t);
  }

  /** The least usable table; None exactly when there is none. */
  method FindNextFreeTableID(k: Kernel, start: int, ip: Ip) returns (r: Option<int>)
    ensures r.Some? ==> start <= r.value <= LAST_TABLE && Usable(k, r.value, ip)
                        && forall t | start <= t < r.value :: !Usable(k, t, ip)
    ensures r.None? <==> forall t | start <= t <= LAST_TABLE :: !Usable(k, t, ip)
    ensures r == FindFrom(k, start, ip)
  {
    var id := start;
    while id <= LAST_TABLE
      invariant start <= id && (id <= LAST_TABLE + 1 || id == start)
      invariant forall t | start <= t < id :: !Usable(k, t, ip)
      invariant FindFrom(k, start, ip) == FindFrom(k, id, ip)
      decreases LAST_TABLE + 1 - id
    {
      var usable := IsTableFree(k, id, ip);
      if usable {
        return Some(id);
      }
      id := id + 1;
    }
    return None;
  }

  // ---- setting up one NIC ----

  /**
   How the calls for one NIC turn out. address: the NIC's address is read and the tables can be listed.
   gateway: the link and its gateway are found. list: the rules can be listed again.
   A route or rule call that reports failure may have taken effect. at: where the kernel lists a new rule.
   */
  datatype Calls = Calls(
    address: bool, gateway: bool, route: bool, routeEffect: bool, list: bool, rule: bool, ruleEffect: bool, at: nat)

  datatype Result = Done(table: int) | Exhausted | CallFailed

  function InsertRule(rules: seq<Rule>, at: nat, r: Rule): seq<Rule> {
    if at <= |rules| then rules[..at] + [r] + rules[at..] else rules + [r]
  }

  function WithRoute(k: Kernel, t: int, dst: Dst, link: string): Kernel {
    k.(routes := k.routes[Slot(t, dst) := Via(link, true)])
  }

  function WithRule(k: Kernel, t: int, ip: Ip, at: nat): Kernel {
    k.(rules := InsertRule(k.rules, at, Rule(Some(ip), 32, t)))
  }

  /** ConfigureRoute for a table already chosen. */
  function Configured(k: Kernel, t: int, ip: Ip, link: string, a: Address, c: Calls): (Kernel, Result) {
    if !c.gateway || a.Invalid? then (k, CallFailed)
    else
      var k1 := if c.route || c.routeEffect then WithRoute(k, t, DstOf(a), link) else k;
      if !c.route || !c.list then (k1, CallFailed)
      else if Rule(Some(ip), 32, t) in k1.rules then (k1, Done(t))
      else
        var k2 := if c.rule || c.ruleEffect then WithRule(k1, t, ip, c.at) else k1;
        (k2, if c.rule then Done(t) else CallFailed)
  }

  function NicSetUp(k: Kernel, ip: Ip, link: string, a: Address, c: Calls): (Kernel, Result) {
    var t := FindFrom(k, FIRST_TABLE, ip);
    if !c.address then (k, CallFailed)
    else if t.None? then (k, Exhausted)
    else Configured(k, t.value, ip, link, a, c)
  }

  /** setUpMultiNIC: one NIC after the other, up to the first failure. */
  function AllSetUp(
    k: Kernel, links: map<Ip, string>, nics: seq<Ip>, a: Address, calls: seq<Calls>): (Kernel, Option<Result>)
    requires |calls| == |nics| && forall i | 0 <= i < |nics| :: nics[i] in links
    decreases |nics|
  {
    if nics == [] then (k, None)
    else
      var (k1, r) := NicSetUp(k, nics[0], links[nics[0]], a, calls[0]);
      if r.Done? then AllSetUp(k1, links, nics[1..], a, calls[1..]) else (k1, Some(r))
  }

  /** The route manager over the kernel it changes. */
  class RouteManager {
    var kernel: Kernel

    constructor (kernel: Kernel)
      ensures this.kernel == kernel
    {
      this.kernel := kernel;
    }

    method ConfigureRoute(t: int, ip: Ip, link: string, a: Address, c: Calls) returns (r: Result)
      modifies this
      ensures (kernel, r) == Configured(old(kernel), t, ip, link, a, c)
    {
      if !c.gateway || a.Invalid? {
        return CallFailed;
      }
      if c.route || c.routeEffect {
        kernel := WithRoute(kernel, t, DstOf(a), link);
      }
      if !c.route || !c.list {
        return CallFailed;
      }
      var rule := Rule(Some(ip), 32, t);
      for i := 0 to |kernel.rules|
        invariant rule !in kernel.rules[..i]
      {
        if kernel.rules[i] == rule {
          return Done(t);
        }
      }
      if c.rule || c.ruleEffect {
        kernel := WithRule(kernel, t, ip, c.at);
      }
      return if c.rule then Done(t) else CallFailed;
    }

    method SetUpMultiNic(links: map<Ip, string>, nics: seq<Ip>, a: Address, calls: seq<Calls>)
      returns (failure: Option<Result>)
      requires |calls| == |nics| && forall i | 0 <= i < |nics| :: nics[i] in links
      modifies this
      ensures (kernel, failure) == AllSetUp(old(kernel), links, nics, a, calls)
    {
      for i := 0 to |nics|
        invariant AllSetUp(old(kernel), links, nics, a, calls) == AllSetUp(kernel, links, nics[i..], a, calls[i..])
      {
        assert nics[i..][0] == nics[i] && nics[i..][1..] == nics[i + 1..] && calls[i..][1..] == calls[i + 1..];
        if !calls[i].address {
          return Some(CallFailed);
        }
        var t := FindNextFreeTableID(kernel, FIRST_TABLE, nics[i]);
        if t.None? {
          return Some(Exhausted);
        }
        var r := ConfigureRoute(t.value, nics[i], links[nics[i]], a, calls[i]);
        if !r.Done? {
          return Some(r);
        }
      }
      return None;
    }
  }
}
