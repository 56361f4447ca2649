/**
 ControllerExpandVolume against an asynchronous backend (pkg/csi_driver/controller.go), for one
 volume ID, as a transition system. A resize whose RPC timed out goes on in the backend, and may
 complete at any moment, also between the calls of a later RPC.
 */
module Expand {
  import opened Options
  import opened Operations
  import opened Capacity

  /** op: where in the log the resize is that the RPC waits for. */
  datatype Pc =
    | GetInstance(bytes: int64)
    | CheckUpdates(bytes: int64)
    | Send(bytes: int64)
    | Wait(bytes: int64, op: nat)

  /** A successful response. resized: the instance was too small, and a resize completed. */
  datatype Reply = Reply(bytes: int64, reported: int64, resized: bool)

  /**
   The lock on the volume ID lets one RPC in at a time. asked is the last request that got the lock, and
   replies are the successful responses so far.
   */
  datatype State = State(gib: int, ops: seq<Operation>, rpc: Option<Pc>, asked: int, replies: seq<Reply>)

  /**
   ok: the call succeeds. effect: a resize whose call reports failure was accepted all the same.
   active: the instance's state.
   */
  datatype Choice = Choice(ok: bool, effect: bool, active: bool)

  datatype Event =
    | Ask(range: Option<CapacityRange>)
    | Move(choice: Choice)
    | Complete(op: nat)
    | Fail(op: nat)
    | Log(other: Operation)

  predicate Running?(fn: FullName, ops: seq<Operation>, i: nat) {
    i < |ops| && IsRunningResizeOf(ops[i], fn)
  }

  /** Log: the backend records an operation that is not a resize of this instance. */
  function Apply(fn: FullName, s: State, e: Event): State {
    match e
    case Ask(range) =>
      var bytes := RequestCapacity(range);
      if s.rpc.Some? || bytes.None? then s
      else s.(rpc := Some(GetInstance(bytes.value)), asked := bytes.value)
    case Move(c) =>
      if s.rpc.None? then s
      else Step(fn, s, s.rpc.value, c)
    case Complete(i) =>
      if Running?(fn, s.ops, i) then
        s.(gib := s.ops[i].gib, ops := s.ops[i := Resize(fn, s.ops[i].gib, Succeeded)])
      else s
    case Fail(i) =>
      if Running?(fn, s.ops, i) then s.(ops := s.ops[i := Resize(fn, s.ops[i].gib, Failed)]) else s
    case Log(op) => if op.Resize? && op.target == fn then s else s.(ops := s.ops + [op])
  }

  function Step(fn: FullName, s: State, pc: Pc, c: Choice): State {
    match pc
    case GetInstance(bytes) =>
      if !c.ok || !c.active then s.(rpc := None)
      else if GibToBytes(s.gib) >= bytes then
        s.(rpc := None, replies := s.replies + [Reply(bytes, GibToBytes(s.gib), false)])
      else s.(rpc := Some(CheckUpdates(bytes)))
    case CheckUpdates(bytes) =>
      if !c.ok || ResizeRunning(s.ops, fn) then s.(rpc := None) else s.(rpc := Some(Send(bytes)))
    case Send(bytes) =>
      var ops := if c.ok || c.effect then s.ops + [Resize(fn, BytesToGib(bytes), Running)] else s.ops;
      s.(ops := ops, rpc := if c.ok then Some(Wait(bytes, |s.ops|)) else None)
    case Wait(bytes, i) =>
      if c.ok && i < |s.ops| && s.ops[i].Resize? && s.ops[i].status == Succeeded then
        s.(rpc := None, replies := s.replies + [Reply(bytes, GibToBytes(s.ops[i].gib), true)])
      else s.(rpc := None)
  }

  function Run(fn: FullName, gib: int, tr: seq<Event>): State {
    if tr == [] then State(gib, [], None, 0, []) else Apply(fn, Run(fn, gib, tr[..|tr| - 1]), tr[|tr| - 1])
  }

  /** A request that gets the lock asks for at least as much as the one before it. */
  predicate Rises(s: State, e: Event) {
    e.Ask? && s.rpc.None? && RequestCapacity(e.range).Some? ==> s.asked <= RequestCapacity(e.range).value
  }

  ghost predicate Rising(fn: FullName, gib: int, tr: seq<Event>) {
    forall i | 0 <= i < |tr| :: Rises(Run(fn, gib, tr[..i]), tr[i])
  }

  // ---- the invariant ----

  predicate PcOk(fn: FullName, s: State, pc: Pc) {
    match pc
    case GetInstance(bytes) => bytes == s.asked
    case CheckUpdates(bytes) => bytes == s.asked && s.gib <= BytesToGib(bytes)
    case Send(bytes) => bytes == s.asked && s.gib <= BytesToGib(bytes) && !ResizeRunning(s.ops, fn)
    case Wait(_, _) => true
  }

  ghost predicate Ok(fn: FullName, s: State) {
    && 0 <= s.gib < MAX_GIB
    && -1 < s.asked < TWO_63
    && (forall i: nat | Running?(fn, s.ops, i) :: s.gib <= s.ops[i].gib <= BytesToGib(s.asked))
    && (forall i: nat, j: nat | i < j && Running?(fn, s.ops, i) :: !Running?(fn, s.ops, j))
    && (s.rpc.Some? ==> s.asked > 0 && PcOk(fn, s, s.rpc.value))
  }

  lemma ApplyKeepsOk(fn: FullName, s: State, e: Event)
    requires Ok(fn, s) && Rises(s, e)
    ensures Ok(fn, Apply(fn, s, e)) && s.gib <= Apply(fn, s, e).gib
  {
    match e
    case Ask(range) =>
      if s.rpc.None? && RequestCapacity(range).Some? {
        if range.Some? {
          RequestCapacityMeetsRange(range.value);
        }
        if s.asked > 0 {
          RoundingIsMonotone(s.asked, RequestCapacity(range).value);
        }
      }
    case Move(c) => if s.rpc.Some? { StepKeepsOk(fn, s, c); }
    case Complete(i) => EndKeepsOk(fn, s, i, e);
    case Fail(i) => EndKeepsOk(fn, s, i, e);
    case Log(op) =>
      var s' := Apply(fn, s, e);
      assert forall j: nat :: Running?(fn, s'.ops, j) ==> Running?(fn, s.ops, j) && s'.ops[j] == s.ops[j];
  }

  /** When the one running resize ends, none is running. */
  lemma EndKeepsOk(fn: FullName, s: State, i: nat, e: Event)
    requires Ok(fn, s) && (e == Complete(i) || e == Fail(i))
    ensures Ok(fn, Apply(fn, s, e)) && s.gib <= Apply(fn, s, e).gib
  {
    if Running?(fn, s.ops, i) {
      var s' := Apply(fn, s, e);
      forall j: nat ensures !Running?(fn, s'.ops, j) {
        assert j < i && Running?(fn, s.ops, j) ==> !Running?(fn, s.ops, i);
      }
      if s.asked > 0 {
        RoundingDown(s.asked);
      }
    }
  }

  lemma StepKeepsOk(fn: FullName, s: State, c: Choice)
    requires Ok(fn, s) && s.rpc.Some?
    ensures Ok(fn, Apply(fn, s, Move(c))) && Apply(fn, s, Move(c)).gib == s.gib
  {
    var pc := s.rpc.value;
    if pc.GetInstance? && GibToBytes(s.gib) < pc.bytes {
      ShortInBytes(s.gib, pc.bytes);
    }
  }

  lemma {:induction false} RunKeepsOk(fn: FullName, gib: int, tr: seq<Event>)
    requires 0 <= gib < MAX_GIB && Rising(fn, gib, tr)
    ensures Ok(fn, Run(fn, gib, tr))
    ensures forall i | 0 <= i <= |tr| :: Run(fn, gib, tr[..i]).gib <= Run(fn, gib, tr).gib
  {
    if tr == [] {
    } else {
      var init := tr[..|tr| - 1];
      assert forall i | 0 <= i <= |init| :: init[..i] == tr[..i];
      RunKeepsOk(fn, gib, init);
      assert Rises(Run(fn, gib, init), tr[|tr| - 1]);
      ApplyKeepsOk(fn, Run(fn, gib, init), tr[|tr| - 1]);
      assert tr[..|tr|] == tr;
    }
  }

  // ---- the promise, and how it fails ----

  /** At no point of the run was the instance larger than at its end. */
  ghost predicate NeverShrank(fn: FullName, gib: int, tr: seq<Event>) {
    forall i | 0 <= i <= |tr| :: Run(fn, gib, tr[..i]).gib <= Run(fn, gib, tr).gib
  }

  /** Requests that never decrease never shrink the instance, even if a timed-out resize completes under a later RPC. */
  lemma NeverShrinksWhenRising(fn: FullName, gib: int, tr: seq<Event>)
    requires 0 <= gib < MAX_GIB && Rising(fn, gib, tr)
    ensures NeverShrank(fn, gib, tr)
  {
    RunKeepsOk(fn, gib, tr);
  }

  lemma Extend(fn: FullName, gib: int, tr: seq<Event>, e: Event) returns (tr': seq<Event>)
    ensures tr' == tr + [e] && Run(fn, gib, tr') == Apply(fn, Run(fn, gib, tr), e)
  {
    tr' := tr + [e];
    assert tr'[..|tr|] == tr;
  }

  /** A request for a size in bytes, without a limit. */
  function AskFor(bytes: int64): Event {
    Ask(Some(CapacityRange(bytes, 0)))
  }

  const WORKS := Move(Choice(true, true, true))
  const TIMES_OUT := Move(Choice(false, true, true))

  /** A resize is accepted, but its RPC times out. */
  lemma TimedOutResize(fn: FullName, gib: int, large: int64) returns (tr: seq<Event>)
    requires 0 <= gib < MAX_GIB && gib * GIB < large
    ensures Run(fn, gib, tr) == State(gib, [Resize(fn, BytesToGib(large), Running)], None, large, [])
    ensures forall e | e in tr && e.Ask? :: e == AskFor(large)
  {
    NoWrap(gib);
    tr := Extend(fn, gib, [], AskFor(large));
    tr := Extend(fn, gib, tr, WORKS);
    assert Run(fn, gib, tr).rpc == Some(CheckUpdates(large));
    tr := Extend(fn, gib, tr, WORKS);
    tr := Extend(fn, gib, tr, TIMES_OUT);
  }

  /** It completes after a smaller request has read the size and before that request looks for updates. */
  lemma CompletesUnderSmaller(fn: FullName, gib: int, small: int64, large: int64) returns (tr: seq<Event>)
    requires 0 <= gib < MAX_GIB && gib * GIB < small && gib * GIB < large
    ensures var y := BytesToGib(large);
            Run(fn, gib, tr) == State(y, [Resize(fn, y, Succeeded)], Some(CheckUpdates(small)), small, [])
    ensures forall e | e in tr && e.Ask? :: e == AskFor(large) || e == AskFor(small)
  {
    NoWrap(gib);
    tr := TimedOutResize(fn, gib, large);
    tr := Extend(fn, gib, tr, AskFor(small));
    tr := Extend(fn, gib, tr, WORKS);
    tr := Extend(fn, gib, tr, Complete(0));
  }

  /** The smaller request resizes the instance all the same. */
  lemma SmallerResizes(fn: FullName, gib: int, small: int64, y: int, tr: seq<Event>) returns (tr': seq<Event>)
    requires Run(fn, gib, tr) == State(y, [Resize(fn, y, Succeeded)], Some(CheckUpdates(small)), small, [])
    ensures Run(fn, gib, tr').gib == BytesToGib(small) && tr' == tr + [WORKS, WORKS, Complete(1)]
  {
    tr' := Extend(fn, gib, tr, WORKS);
    tr' := Extend(fn, gib, tr', WORKS);
    assert Run(fn, gib, tr').ops == [Resize(fn, y, Succeeded), Resize(fn, BytesToGib(small), Running)];
    tr' := Extend(fn, gib, tr', Complete(1));
  }

  /** So the instance shrinks. Any two requests above the present size that differ in whole GiB will do. */
  lemma SmallerRequestShrinks(fn: FullName, gib: int, small: int64, large: int64) returns (tr: seq<Event>)
    requires 0 <= gib < MAX_GIB && gib * GIB < small && BytesToGib(small) < BytesToGib(large)
    ensures !NeverShrank(fn, gib, tr)
    ensures forall e | e in tr && e.Ask? :: e == AskFor(large) || e == AskFor(small)
  {
    var grown := CompletesUnderSmaller(fn, gib, small, large);
    tr := SmallerResizes(fn, gib, small, BytesToGib(large), grown);
    assert tr[..|grown|] == grown;
  }

  // ---- requests in any order ----

  /** Every request that is not refused is for one of the given sizes, in bytes. */
  predicate AsksOnly(tr: seq<Event>, asks: set<int64>) {
    forall e | e in tr && e.Ask? && RequestCapacity(e.range).Some? :: RequestCapacity(e.range).value in asks
  }

  /** The size a request above the first size asks for, in whole GiB. */
  predicate Aim(gib: int, asks: set<int64>, x: int) {
    exists a :: a in asks && gib * GIB < a && BytesToGib(a) == x
  }

  predicate PcAims(gib: int, asks: set<int64>, pc: Pc) {
    match pc
    case GetInstance(bytes) => bytes in asks
    case CheckUpdates(bytes) => bytes in asks && gib * GIB < bytes
    case Send(bytes) => bytes in asks && gib * GIB < bytes
    case Wait(_, _) => true
  }

  /** The instance has its first size or one that was aimed at, and so will it after any running resize. */
  ghost predicate Aimed(fn: FullName, gib: int, asks: set<int64>, s: State) {
    && (s.gib == gib || Aim(gib, asks, s.gib))
    && (forall i: nat | Running?(fn, s.ops, i) :: Aim(gib, asks, s.ops[i].gib))
    && (s.rpc.Some? ==> PcAims(gib, asks, s.rpc.value))
  }

  lemma AimIsAbove(gib: int, asks: set<int64>, x: int)
    requires 0 <= gib < MAX_GIB && Aim(gib, asks, x)
    ensures gib <= x < MAX_GIB
  {
    var a :| a in asks && gib * GIB < a && BytesToGib(a) == x;
    NoWrap(gib);
    ShortInBytes(gib, a);
    RoundingDown(a);
  }

  lemma MoveKeepsAimed(fn: FullName, gib: int, asks: set<int64>, s: State, c: Choice)
    requires 0 <= gib < MAX_GIB && Aimed(fn, gib, asks, s) && s.rpc.Some?
    ensures Aimed(fn, gib, asks, Apply(fn, s, Move(c)))
  {
    var s', pc := Apply(fn, s, Move(c)), s.rpc.value;
    if s.gib != gib {
      AimIsAbove(gib, asks, s.gib);
    }
    NoWrap(s.gib);
    forall i: nat | Running?(fn, s'.ops, i) ensures Aim(gib, asks, s'.ops[i].gib) {
      if i < |s.ops| {
        assert Running?(fn, s.ops, i);
      } else {
        assert pc.Send? && s'.ops[i].gib == BytesToGib(pc.bytes);
      }
    }
  }

  lemma ApplyKeepsAimed(fn: FullName, gib: int, asks: set<int64>, s: State, e: Event)
    requires 0 <= gib < MAX_GIB && Aimed(fn, gib, asks, s)
    requires e.Ask? && RequestCapacity(e.range).Some? ==> RequestCapacity(e.range).value in asks
    ensures Aimed(fn, gib, asks, Apply(fn, s, e))
  {
    var s' := Apply(fn, s, e);
    if e.Move? {
      if s.rpc.Some? {
        MoveKeepsAimed(fn, gib, asks, s, e.choice);
      }
    } else {
      forall i: nat | Running?(fn, s'.ops, i) ensures Aim(gib, asks, s'.ops[i].gib) {
        assert Running?(fn, s.ops, i);
      }
    }
  }

  lemma {:induction false} RunKeepsAimed(fn: FullName, gib: int, asks: set<int64>, tr: seq<Event>)
    requires 0 <= gib < MAX_GIB && AsksOnly(tr, asks)
    ensures Aimed(fn, gib, asks, Run(fn, gib, tr))
  {
    if tr != [] {
      RunKeepsAimed(fn, gib, asks, tr[..|tr| - 1]);
      assert tr[|tr| - 1] in tr;
      ApplyKeepsAimed(fn, gib, asks, Run(fn, gib, tr[..|tr| - 1]), tr[|tr| - 1]);
    }
  }

  /** The requests above the first size agree in whole GiB. */
  predicate OneAim(gib: int, asks: set<int64>) {
    forall a, b | a in asks && b in asks && gib * GIB < a && gib * GIB < b :: BytesToGib(a) == BytesToGib(b)
  }

  /** With one size to grow to, the instance has its first size until it has that one. */
  lemma {:induction false} OneAimNeverShrinks(fn: FullName, gib: int, asks: set<int64>, tr: seq<Event>)
    requires 0 <= gib < MAX_GIB && AsksOnly(tr, asks) && OneAim(gib, asks)
    ensures NeverShrank(fn, gib, tr)
  {
    if tr == [] {
    } else {
      var init, e := tr[..|tr| - 1], tr[|tr| - 1];
      assert forall i | 0 <= i <= |init| :: init[..i] == tr[..i];
      OneAimNeverShrinks(fn, gib, asks, init);
      RunKeepsAimed(fn, gib, asks, init);
      RunKeepsAimed(fn, gib, asks, tr);
      StaysOrGrows(fn, gib, asks, Run(fn, gib, init), e);
      assert tr[..|tr|] == tr;
    }
  }

  lemma StaysOrGrows(fn: FullName, gib: int, asks: set<int64>, s: State, e: Event)
    requires 0 <= gib < MAX_GIB && OneAim(gib, asks) && Aimed(fn, gib, asks, s)
    ensures s.gib <= Apply(fn, s, e).gib
  {
    if e.Complete? && Running?(fn, s.ops, e.op) {
      AimIsAbove(gib, asks, s.ops[e.op].gib);
    }
  }

  /**
   The exact condition when requests may come in any order: no run shrinks the instance, if and only if
   all requests above its first size agree in whole GiB.
   */
  lemma NeverShrinksExactly(fn: FullName, gib: int, asks: set<int64>)
    requires 0 <= gib < MAX_GIB
    ensures (forall tr: seq<Event> | AsksOnly(tr, asks) :: NeverShrank(fn, gib, tr)) <==> OneAim(gib, asks)
  {
    if a, b :| a in asks && b in asks && gib * GIB < a && gib * GIB < b && BytesToGib(a) < BytesToGib(b) {
      var tr := SmallerRequestShrinks(fn, gib, a, b);
      assert AsksOnly(tr, asks);
    } else {
      forall tr: seq<Event> | AsksOnly(tr, asks) ensures NeverShrank(fn, gib, tr) {
        OneAimNeverShrinks(fn, gib, asks, tr);
      }
    }
  }

  // ---- what a successful expansion reports ----

  /**
   A response is never a whole GiB short of its request, and covers it exactly when the instance
   was large enough already or the request is a whole number of GiB.
   */
  predicate Covers(r: Reply) {
    r.bytes > 0 && r.reported > r.bytes - GIB && (r.reported >= r.bytes <==> !r.resized || r.bytes % GIB == 0)
  }

  /** The RPC has a positive request, and the resize it waits for is its own. */
  predicate PcHonest(fn: FullName, s: State, pc: Pc) {
    pc.bytes > 0 && (pc.Wait? ==>
      pc.op < |s.ops| && s.ops[pc.op].Resize? && s.ops[pc.op].target == fn && s.ops[pc.op].gib == BytesToGib(pc.bytes))
  }

  ghost predicate Honest(fn: FullName, s: State) {
    && (s.rpc.Some? ==> PcHonest(fn, s, s.rpc.value))
    && (forall i | 0 <= i < |s.replies| :: Covers(s.replies[i]))
  }

  lemma ResizeReportCovers(bytes: int64)
    requires bytes > 0
    ensures Covers(Reply(bytes, GibToBytes(BytesToGib(bytes)), true))
  {
    RoundingDown(bytes);
    NoWrap(BytesToGib(bytes));
  }

  lemma ApplyKeepsHonest(fn: FullName, s: State, e: Event)
    requires Honest(fn, s)
    ensures Honest(fn, Apply(fn, s, e))
  {
    if e.Ask? && e.range.Some? {
      RequestCapacityMeetsRange(e.range.value);
    }
    if s.rpc.Some? {
      ResizeReportCovers(s.rpc.value.bytes);
    }
  }

  /** In every run, with requests in any order, every successful response covers its request as said above. */
  lemma {:induction false} ReportCoversRequest(fn: FullName, gib: int, tr: seq<Event>)
    ensures Honest(fn, Run(fn, gib, tr))
  {
    if tr != [] {
      ReportCoversRequest(fn, gib, tr[..|tr| - 1]);
      ApplyKeepsHonest(fn, Run(fn, gib, tr[..|tr| - 1]), tr[|tr| - 1]);
    }
  }

  // ---- when a response is given ----

  /** The whole GiB of a size in bytes. */
  function Whole(bytes: int): int {
    bytes - bytes % GIB
  }

  lemma WholeIsReported(bytes: int64)
    requires bytes > 0
    ensures GibToBytes(BytesToGib(bytes)) == Whole(bytes) && BytesToGib(bytes) * GIB == Whole(bytes)
  {
    RoundingDown(bytes);
    NoWrap(BytesToGib(bytes));
  }

  lemma ExpandUpToWait(fn: FullName, gib: int, tr: seq<Event>, bytes: int64) returns (tr': seq<Event>)
    requires var s := Run(fn, gib, tr);
             s.rpc.None? && 0 <= s.gib < MAX_GIB && s.gib * GIB < bytes && !ResizeRunning(s.ops, fn)
    ensures tr' == tr + [AskFor(bytes), WORKS, WORKS, WORKS]
    ensures var s := Run(fn, gib, tr);
            Run(fn, gib, tr') == s.(ops := s.ops + [Resize(fn, BytesToGib(bytes), Running)],
                                    rpc := Some(Wait(bytes, |s.ops|)), asked := bytes)
  {
    NoWrap(Run(fn, gib, tr).gib);
    tr' := Extend(fn, gib, tr, AskFor(bytes));
    tr' := Extend(fn, gib, tr', WORKS);
    tr' := Extend(fn, gib, tr', WORKS);
    tr' := Extend(fn, gib, tr', WORKS);
  }

  /** A request for more, in which every call succeeds and the resize completes: that size, and one response with it. */
  lemma ExpandAlone(fn: FullName, gib: int, tr: seq<Event>, bytes: int64) returns (tr': seq<Event>)
    requires var s := Run(fn, gib, tr);
             s.rpc.None? && 0 <= s.gib < MAX_GIB && s.gib * GIB < bytes && !ResizeRunning(s.ops, fn)
    ensures tr' == tr + [AskFor(bytes), WORKS, WORKS, WORKS, Complete(|Run(fn, gib, tr).ops|), WORKS]
    ensures var (s, s') := (Run(fn, gib, tr), Run(fn, gib, tr'));
            && s'.rpc.None? && s'.gib * GIB == Whole(bytes)
            && s'.replies == s.replies + [Reply(bytes, Whole(bytes), true)]
            && s'.ops == s.ops + [Resize(fn, s'.gib, Succeeded)]
  {
    var s := Run(fn, gib, tr);
    WholeIsReported(bytes);
    tr' := ExpandUpToWait(fn, gib, tr, bytes);
    tr' := Extend(fn, gib, tr', Complete(|s.ops|));
    assert Run(fn, gib, tr').ops == s.ops + [Resize(fn, BytesToGib(bytes), Succeeded)];
    tr' := Extend(fn, gib, tr', WORKS);
  }

  /** A request for no more than there is: one response with what there is, and nothing else. */
  lemma ExpandNothing(fn: FullName, gib: int, tr: seq<Event>, bytes: int64) returns (tr': seq<Event>)
    requires var s := Run(fn, gib, tr); s.rpc.None? && 0 <= s.gib < MAX_GIB && 0 < bytes <= s.gib * GIB
    ensures tr' == tr + [AskFor(bytes), WORKS]
    ensures var s := Run(fn, gib, tr);
            Run(fn, gib, tr') == s.(asked := bytes, replies := s.replies + [Reply(bytes, s.gib * GIB, false)])
  {
    NoWrap(Run(fn, gib, tr).gib);
    tr' := Extend(fn, gib, tr, AskFor(bytes));
    tr' := Extend(fn, gib, tr', WORKS);
  }

  /** In every run, an RPC that waits is answered exactly when the call succeeds and its own resize did. */
  lemma WaitIsAnswered(fn: FullName, gib: int, tr: seq<Event>, c: Choice)
    requires Run(fn, gib, tr).rpc.Some? && Run(fn, gib, tr).rpc.value.Wait?
    ensures var (s, s') := (Run(fn, gib, tr), Run(fn, gib, tr + [Move(c)]));
            var Wait(bytes, i) := s.rpc.value;
            && i < |s.ops| && s.ops[i].Resize? && s.ops[i].target == fn && s'.ops == s.ops && s'.rpc.None?
            && s'.replies == if c.ok && s.ops[i].status == Succeeded
                             then s.replies + [Reply(bytes, Whole(bytes), true)] else s.replies
  {
    ReportCoversRequest(fn, gib, tr);
    WholeIsReported(Run(fn, gib, tr).rpc.value.bytes);
    assert (tr + [Move(c)])[..|tr|] == tr;
  }

  /** In every run, a failed call, an inactive instance or a running resize ends the RPC with nothing sent. */
  lemma RefusedSendsNothing(fn: FullName, gib: int, tr: seq<Event>, c: Choice)
    requires var s := Run(fn, gib, tr);
             && s.rpc.Some?
             && ((s.rpc.value.GetInstance? && (!c.ok || !c.active))
                 || (s.rpc.value.CheckUpdates? && (!c.ok || ResizeRunning(s.ops, fn))))
    ensures var s := Run(fn, gib, tr); Run(fn, gib, tr + [Move(c)]) == s.(rpc := None)
  {
    assert (tr + [Move(c)])[..|tr|] == tr;
  }
}
