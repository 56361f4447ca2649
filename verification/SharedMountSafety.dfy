/**
 Safety of the shared mounts over every interleaving and every fault:
 the lock set, the reference count and the recursive removal of a key directory.
 */
module SharedMountSafety {
  import opened Options
  import opened GlobPatterns
  import opened SharedMounts
  import opened VolumeLocks

  /** The lock set is the disjoint union of what the RPCs in flight hold. */
  ghost predicate LocksMatch(s: State) {
    Partitions(Image(s.rpcs, Holds), s.locks)
  }

  predicate KeyOk(n: Node, k: Key) {
    (RefsOf(n, k) != {} ==> k in n.mounted) && (k in n.mounted ==> k in n.tokens)
  }

  /** What holds at each step of an RPC about the key it has locked. */
  predicate RpcOk(n: Node, r: Rpc) {
    match r.pc
    case ProbeGlobal(_) => r.key in n.tokens
    case MountGlobal(_) => r.key !in n.mounted && r.key in n.tokens
    case AddRef(_) => r.key in n.mounted
    case Unmounting(phase, MountFailed) => RefsOf(n, r.key) == {} && (phase.RemoveDir? ==> r.key !in n.mounted)
    case Unmounting(phase, Teardown(k, _, _)) => k !in n.refs && (phase.RemoveDir? ==> k !in n.mounted)
    case WipeKeyDir(k, _, _) => !InUse(n, k)
    case Done => false
    case _ => true
  }

  ghost predicate Safe(s: State) {
    && LocksMatch(s)
    && (forall k: Key :: KeyOk(s.node, k))
    && (forall i | i in s.rpcs :: RpcOk(s.node, s.rpcs[i]))
    && s.node.damaged == {}
  }

  /** The two nodes agree on everything the driver keeps about a key. */
  predicate SameKey(m: Node, n: Node, k: Key) {
    && (k in m.refs <==> k in n.refs)
    && RefsOf(m, k) == RefsOf(n, k)
    && (k in m.mountDirs <==> k in n.mountDirs)
    && (k in m.tokens <==> k in n.tokens)
    && (k in m.mounted <==> k in n.mounted)
  }

  lemma SharedKeepsOtherKeys(n: Node, locks: set<LockName>, r: Rpc, c: Choice, k: Key)
    requires r.key != k && InSharedPublish(r.pc)
    ensures SameKey(n, SharedStep(n, locks, r, c).node, k)
  {
  }

  lemma UnmountKeepsOtherKeys(n: Node, locks: set<LockName>, r: Rpc, c: Choice, k: Key)
    requires HeldKey(r) != Some(k) && r.pc.Unmounting?
    ensures SameKey(n, UnmountStep(n, locks, r, c).node, k)
  {
  }

  /** A step changes only the key it has locked. */
  lemma StepKeepsOtherKeys(n: Node, locks: set<LockName>, r: Rpc, c: Choice, k: Key)
    requires HeldKey(r) != Some(k)
    ensures SameKey(n, Step(n, locks, r, c).node, k)
  {
    if InSharedPublish(r.pc) {
      SharedKeepsOtherKeys(n, locks, r, c, k);
    } else if r.pc.Unmounting? {
      UnmountKeepsOtherKeys(n, locks, r, c, k);
    }
  }

  /** The outcome frees only names its own RPC holds, and takes only names nobody holds. */
  predicate LocksMove(locks: set<LockName>, r: Rpc, o: Outcome) {
    var held := if o.pc.Done? then {} else Holds(r.(pc := o.pc));
    o.locks == locks - Holds(r) + held && (held - Holds(r)) !! locks
  }

  lemma PublishLocks(n: Node, locks: set<LockName>, r: Rpc, c: Choice)
    requires Holds(r) <= locks && InPublish(r.pc)
    ensures LocksMove(locks, r, PublishStep(n, locks, r, c))
  {
  }

  lemma SharedLocks(n: Node, locks: set<LockName>, r: Rpc, c: Choice)
    requires Holds(r) <= locks && InSharedPublish(r.pc)
    ensures LocksMove(locks, r, SharedStep(n, locks, r, c))
  {
  }

  lemma UnmountLocks(n: Node, locks: set<LockName>, r: Rpc, c: Choice)
    requires Holds(r) <= locks && r.pc.Unmounting?
    ensures LocksMove(locks, r, UnmountStep(n, locks, r, c))
  {
  }

  lemma NextKeyLocks(n: Node, locks: set<LockName>, r: Rpc, c: Choice)
    requires Holds(r) <= locks && r.pc.NextKey?
    ensures LocksMove(locks, r, CleanUpStep(n, locks, r, c))
  {
  }

  lemma FreeKeyLocks(n: Node, locks: set<LockName>, r: Rpc, c: Choice)
    requires Holds(r) <= locks && r.pc.FreeKey?
    ensures LocksMove(locks, r, CleanUpStep(n, locks, r, c))
  {
  }

  /** The other steps of the clean-up hold what they held. */
  lemma CleanUpHolds(n: Node, locks: set<LockName>, r: Rpc, c: Choice)
    requires InCleanUp(r.pc) && !r.pc.NextKey? && !r.pc.FreeKey?
    ensures var o := CleanUpStep(n, locks, r, c);
            o.locks == locks && !o.pc.Done? && HeldKey(r.(pc := o.pc)) == HeldKey(r)
  {
  }

  lemma CleanUpLocks(n: Node, locks: set<LockName>, r: Rpc, c: Choice)
    requires Holds(r) <= locks && InCleanUp(r.pc)
    ensures LocksMove(locks, r, CleanUpStep(n, locks, r, c))
  {
    if r.pc.NextKey? {
      NextKeyLocks(n, locks, r, c);
    } else if r.pc.FreeKey? {
      FreeKeyLocks(n, locks, r, c);
    } else {
      CleanUpHolds(n, locks, r, c);
    }
  }

  lemma StepLocks(n: Node, locks: set<LockName>, r: Rpc, c: Choice)
    requires Holds(r) <= locks && !r.pc.Done?
    ensures LocksMove(locks, r, Step(n, locks, r, c))
  {
    if InPublish(r.pc) {
      PublishLocks(n, locks, r, c);
    } else if InSharedPublish(r.pc) {
      SharedLocks(n, locks, r, c);
    } else if InCleanUp(r.pc) {
      CleanUpLocks(n, locks, r, c);
    } else if r.pc.Unmounting? {
      UnmountLocks(n, locks, r, c);
    }
  }

  lemma StepKeepsKey(n: Node, locks: set<LockName>, r: Rpc, c: Choice, k: Key)
    requires RpcOk(n, r) && KeyOk(n, k)
    ensures KeyOk(Step(n, locks, r, c).node, k)
  {
  }

  /** The step leaves its own RPC in order, and wipes nothing in use. */
  predicate KeepsOwn(n: Node, r: Rpc, o: Outcome) {
    (o.pc.Done? || RpcOk(o.node, r.(pc := o.pc))) && o.node.damaged == n.damaged
  }

  lemma SharedKeepsOwn(n: Node, locks: set<LockName>, r: Rpc, c: Choice)
    requires RpcOk(n, r) && KeyOk(n, r.key) && InSharedPublish(r.pc)
    ensures KeepsOwn(n, r, SharedStep(n, locks, r, c))
  {
  }

  lemma UnmountKeepsOwn(n: Node, locks: set<LockName>, r: Rpc, c: Choice)
    requires RpcOk(n, r) && r.pc.Unmounting?
    ensures KeepsOwn(n, r, UnmountStep(n, locks, r, c))
  {
  }

  lemma StepKeepsOwn(n: Node, locks: set<LockName>, r: Rpc, c: Choice)
    requires RpcOk(n, r) && KeyOk(n, r.key)
    ensures KeepsOwn(n, r, Step(n, locks, r, c))
  {
    if InSharedPublish(r.pc) {
      SharedKeepsOwn(n, locks, r, c);
    } else if r.pc.Unmounting? {
      UnmountKeepsOwn(n, locks, r, c);
    }
  }

  lemma OthersKeepRpc(m: Node, n: Node, r: Rpc)
    requires RpcOk(m, r)
    requires HeldKey(r).Some? ==> SameKey(m, n, HeldKey(r).value)
    ensures RpcOk(n, r)
  {
  }

  /** A step leaves alone the key locked by another RPC. */
  lemma OtherKeyIsKept(s: State, id: nat, c: Choice, i: nat)
    requires LocksMatch(s) && id in s.rpcs && i in s.rpcs && i != id && HeldKey(s.rpcs[i]).Some?
    ensures SameKey(s.node, Step(s.node, s.locks, s.rpcs[id], c).node, HeldKey(s.rpcs[i]).value)
  {
    var k := HeldKey(s.rpcs[i]).value;
    assert Image(s.rpcs, Holds)[i] !! Image(s.rpcs, Holds)[id];
    assert KeyLock(k) in Holds(s.rpcs[i]);
    StepKeepsOtherKeys(s.node, s.locks, s.rpcs[id], c, k);
  }

  lemma BeginKeepsLocks(s: State, id: nat, req: Request)
    requires LocksMatch(s)
    ensures LocksMatch(Apply(s, Begin(id, req)))
  {
    if id !in s.rpcs && TargetLock(req.target) !in s.locks {
      assert Holds(Started(req)) == {TargetLock(req.target)};
      MemberChange(s.rpcs, Holds, s.locks, id, [Started(req)], s.locks + {TargetLock(req.target)});
    }
  }

  lemma OutcomeKeepsLocks(s: State, id: nat, o: Outcome)
    requires LocksMatch(s) && id in s.rpcs && LocksMove(s.locks, s.rpcs[id], o)
    ensures LocksMatch(After(s, id, o))
  {
    MemberChange(s.rpcs, Holds, s.locks, id, if o.pc.Done? then [] else [s.rpcs[id].(pc := o.pc)], o.locks);
  }

  lemma MoveLocks(s: State, id: nat, c: Choice)
    requires LocksMatch(s) && id in s.rpcs && !s.rpcs[id].pc.Done?
    ensures LocksMove(s.locks, s.rpcs[id], Step(s.node, s.locks, s.rpcs[id], c))
  {
    assert Image(s.rpcs, Holds)[id] <= s.locks;
    StepLocks(s.node, s.locks, s.rpcs[id], c);
  }

  lemma MoveKeepsNode(s: State, id: nat, c: Choice)
    requires Safe(s) && id in s.rpcs
    ensures var s' := Apply(s, Move(id, c));
            && (forall k: Key :: KeyOk(s'.node, k))
            && (forall i | i in s'.rpcs :: RpcOk(s'.node, s'.rpcs[i]))
            && s'.node.damaged == {}
  {
    var s', r := Apply(s, Move(id, c)), s.rpcs[id];
    assert RpcOk(s.node, r) && KeyOk(s.node, r.key);
    StepKeepsOwn(s.node, s.locks, r, c);
    forall k: Key ensures KeyOk(s'.node, k) {
      assert KeyOk(s.node, k);
      StepKeepsKey(s.node, s.locks, r, c, k);
    }
    forall i | i in s'.rpcs ensures RpcOk(s'.node, s'.rpcs[i]) {
      if i != id {
        if HeldKey(s.rpcs[i]).Some? {
          OtherKeyIsKept(s, id, c, i);
        }
        OthersKeepRpc(s.node, s'.node, s.rpcs[i]);
      }
    }
  }

  lemma BeginKeepsNode(s: State, id: nat, req: Request)
    requires Safe(s)
    ensures var s' := Apply(s, Begin(id, req));
            s'.node == s.node && (forall i | i in s'.rpcs :: RpcOk(s'.node, s'.rpcs[i]))
  {
    assert RpcOk(s.node, Started(req));
  }

  lemma ApplyKeepsSafe(s: State, e: Event)
    requires Safe(s)
    ensures Safe(Apply(s, e))
  {
    match e
    case Begin(id, req) =>
      BeginKeepsLocks(s, id, req);
      BeginKeepsNode(s, id, req);
    case Move(id, c) =>
      if id in s.rpcs {
        assert RpcOk(s.node, s.rpcs[id]);
        MoveLocks(s, id, c);
        OutcomeKeepsLocks(s, id, Step(s.node, s.locks, s.rpcs[id], c));
        MoveKeepsNode(s, id, c);
      }
  }

  lemma {:induction false} RunIsSafe(tr: seq<Event>)
    ensures Safe(Run(tr))
  {
    if tr != [] {
      RunIsSafe(tr[..|tr| - 1]);
      ApplyKeepsSafe(Run(tr[..|tr| - 1]), tr[|tr| - 1]);
    }
  }

  // ---- the promises ----

  /** A key with at least one pod reference has its shared mount mounted. */
  lemma ReferencedKeyIsMounted(tr: seq<Event>, k: Key)
    ensures RefsOf(Run(tr).node, k) != {} ==> k in Run(tr).node.mounted
  {
    RunIsSafe(tr);
    assert KeyOk(Run(tr).node, k);
  }

  /** A mounted key has its token file: it is written before the mount, and goes only with the whole directory. */
  lemma MountedKeyHasToken(tr: seq<Event>, k: Key)
    ensures k in Run(tr).node.mounted ==> k in Run(tr).node.tokens
  {
    RunIsSafe(tr);
    assert KeyOk(Run(tr).node, k);
  }

  /**
   os.RemoveAll never runs on a key directory in use: when an RPC is about to wipe a key,
   its path is unmounted, its mount directory is gone and no refs directory is left.
   */
  lemma WipeIsHarmless(tr: seq<Event>, id: nat)
    requires id in Run(tr).rpcs && Run(tr).rpcs[id].pc.WipeKeyDir?
    ensures !InUse(Run(tr).node, Run(tr).rpcs[id].pc.cleaning)
  {
    RunIsSafe(tr);
    assert RpcOk(Run(tr).node, Run(tr).rpcs[id]);
  }

  lemma NothingIsDamaged(tr: seq<Event>)
    ensures Run(tr).node.damaged == {}
  {
    RunIsSafe(tr);
  }

  // ---- whose references are removed ----

  /** The markers an RPC has found and not yet removed. */
  function Found(pc: Pc): seq<Ref> {
    match pc
    case NextKey(todo, _) => todo
    case RemoveRef(k, marker, todo, _) => [Ref(k, marker)] + todo
    case RemoveRefsDir(_, todo, _) => todo
    case WipeKeyDir(_, todo, _) => todo
    case FreeKey(_, todo, _) => todo
    case Unmounting(_, Teardown(_, todo, _)) => todo
    case _ => []
  }

  /** All of them fit the pattern made of the pod UID in its target path. */
  predicate Aims(r: Rpc) {
    forall i | 0 <= i < |Found(r.pc)| :: Match(r.pod, Found(r.pc)[i].pod)
  }

  /** The list is made by the glob, and is worked off from its front. */
  predicate WorksOff(m: seq<Ref>, n: seq<Ref>) {
    n == m || (m != [] && n == m[1..])
  }

  lemma CleanUpWorksOff(n: Node, locks: set<LockName>, r: Rpc, c: Choice)
    requires InCleanUp(r.pc) && !r.pc.Glob?
    ensures WorksOff(Found(r.pc), Found(CleanUpStep(n, locks, r, c).pc))
  {
    if r.pc.NextKey? && r.pc.todo != [] {
      assert [Ref(r.pc.todo[0].key, r.pc.todo[0].pod)] + r.pc.todo[1..] == r.pc.todo;
    }
  }

  lemma StepWorksOff(n: Node, locks: set<LockName>, r: Rpc, c: Choice)
    requires !r.pc.Glob?
    ensures WorksOff(Found(r.pc), Found(Step(n, locks, r, c).pc))
  {
    if InCleanUp(r.pc) {
      CleanUpWorksOff(n, locks, r, c);
    }
  }

  lemma StepKeepsAim(n: Node, locks: set<LockName>, r: Rpc, c: Choice)
    requires Aims(r)
    ensures Aims(r.(pc := Step(n, locks, r, c).pc))
  {
    if !r.pc.Glob? {
      StepWorksOff(n, locks, r, c);
    } else {
      var found := Fitting(r.pod, c.matches);
      forall i | 0 <= i < |found| ensures Match(r.pod, found[i].pod) {
        assert found[i] in found;
      }
    }
  }

  lemma {:induction false} RunAims(tr: seq<Event>, i: nat)
    requires i in Run(tr).rpcs
    ensures Aims(Run(tr).rpcs[i])
  {
    var s, e := Run(tr[..|tr| - 1]), tr[|tr| - 1];
    if e.Move? && e.id == i {
      RunAims(tr[..|tr| - 1], i);
      StepKeepsAim(s.node, s.locks, s.rpcs[i], e.choice);
    } else if i in s.rpcs {
      RunAims(tr[..|tr| - 1], i);
    }
  }

  /** An RPC removes its own pod's reference under its key, or one that fits the pattern. */
  predicate MayRemove(r: Rpc, k: Key, p: Pod) {
    (r.pc.DropOwnRef? && r.pod == p && r.key == k) || (r.pc.RemoveRef? && Match(r.pod, p))
  }

  lemma StepRemovesOwnReference(n: Node, locks: set<LockName>, r: Rpc, c: Choice, k: Key, p: Pod)
    requires RpcOk(n, r) && Aims(r) && p in RefsOf(n, k) && p !in RefsOf(Step(n, locks, r, c).node, k)
    ensures MayRemove(r, k, p)
  {
    if r.pc.RemoveRef? {
      assert Match(r.pod, Found(r.pc)[0].pod);
    }
  }

  /** The event removes a pod's reference to a key. */
  predicate Removes(tr: seq<Event>, e: Event, k: Key, p: Pod) {
    p in RefsOf(Run(tr).node, k) && p !in RefsOf(Run(tr + [e]).node, k)
  }

  /** A reference is removed by a step of its own pod's RPC, or of one whose pod UID matches it as a pattern. */
  lemma OnlyMatchingReferenceIsRemoved(tr: seq<Event>, e: Event, k: Key, p: Pod)
    requires Removes(tr, e, k, p)
    ensures e.Move? && e.id in Run(tr).rpcs && MayRemove(Run(tr).rpcs[e.id], k, p)
  {
    var s := Run(tr);
    RunIsSafe(tr);
    assert (tr + [e])[..|tr|] == tr;
    if e.Move? && e.id in s.rpcs {
      RunAims(tr, e.id);
      StepRemovesOwnReference(s.node, s.locks, s.rpcs[e.id], e.choice, k, p);
    }
  }

  /** A step of an RPC whose pod UID has no pattern characters never removes another pod's reference. */
  lemma OnlyOwnReferenceIsRemoved(tr: seq<Event>, e: Event, k: Key, p: Pod)
    requires Removes(tr, e, k, p)
    ensures e.Move? && e.id in Run(tr).rpcs
    ensures Literal(Run(tr).rpcs[e.id].pod) ==> Run(tr).rpcs[e.id].pod == p
  {
    OnlyMatchingReferenceIsRemoved(tr, e, k, p);
    if Literal(Run(tr).rpcs[e.id].pod) {
      LiteralMatchesItself(Run(tr).rpcs[e.id].pod, p);
    }
  }

  /** The lock set is exactly what the RPCs in flight hold, and nothing is locked when none is in flight. */
  lemma LocksAreExact(tr: seq<Event>)
    ensures LocksMatch(Run(tr))
    ensures Run(tr).rpcs == map[] ==> Run(tr).locks == {}
  {
    RunIsSafe(tr);
  }

  /** No event frees a name held by an RPC other than the one that moves. */
  lemma NoNameIsFreedForOthers(tr: seq<Event>, e: Event, i: nat)
    requires i in Run(tr).rpcs && i != e.id
    ensures i in Run(tr + [e]).rpcs && Holds(Run(tr + [e]).rpcs[i]) == Holds(Run(tr).rpcs[i])
    ensures Holds(Run(tr).rpcs[i]) <= Run(tr + [e]).locks
  {
    RunIsSafe(tr + [e]);
    assert (tr + [e])[..|tr|] == tr;
    assert Run(tr + [e]).rpcs[i] == Run(tr).rpcs[i];
    assert Image(Run(tr + [e]).rpcs, Holds)[i] <= Run(tr + [e]).locks;
  }
}
