/**
 When is the shared mount under a bound target safe from teardown?
 NodeUnpublishVolume drops the references of the pod named in the target path under every
 key, whichever of the pod's volumes is being unpublished, and reads the name as a file-name
 pattern. So the answer depends on which targets there are, and this module states it as an
 if-and-only-if.
 */
module SharedMountTenancy {
  import opened Options
  import opened GlobPatterns
  import opened SharedMounts
  import opened SharedMountSafety
  import opened VolumeLocks

  /** A volume of a pod at one target. A plain volume is bind-mounted from its staging path. */
  datatype Volume = Iam(pod: Pod, key: Key) | Plain(owner: Option<Pod>)

  /** The volumes Kubernetes asks for: one per target, with the pod read off the target path. */
  type Deployment = map<Target, Volume>

  function OwnerOf(v: Volume): Option<Pod> {
    match v
    case Iam(pod, _) => Some(pod)
    case Plain(owner) => owner
  }

  /** The event belongs to the deployment; a bind that fails may leave the target bound only if dirtyBinds. */
  predicate Drawn(d: Deployment, dirtyBinds: bool, e: Event) {
    match e
    case Begin(_, Publish(t, pod, key, iam)) => t in d && (if iam then d[t] == Iam(pod, key) else d[t].Plain?)
    case Begin(_, Unpublish(t, owner)) => t in d && owner == OwnerOf(d[t])
    case Begin(_, Stage(_)) => true
    case Move(_, c) => dirtyBinds || !c.halfBound
  }

  /** A bound IAM target has its pod's reference, and the shared mount below it is mounted. */
  predicate TargetOk(d: Deployment, n: Node, t: Target) {
    t in d && d[t].Iam? && t in n.bound ==>
      n.bound[t] == Shared(d[t].key) && d[t].pod in RefsOf(n, d[t].key) && d[t].key in n.mounted
  }

  ghost predicate Protected(d: Deployment, s: State) {
    forall t: Target :: TargetOk(d, s.node, t)
  }

  /** Unpublishing a target of this kind drops the reference: the pod in its path matches the other pod as a pattern. */
  predicate Takes(v: Volume, p: Pod) {
    OwnerOf(v).Some? && Match(OwnerOf(v).value, p)
  }

  /**
   No other target takes the reference of an IAM target, or has the very same pod and key. For pod UIDs without
   pattern characters: no pod with an IAM volume has a second target, of either kind.
   */
  ghost predicate PodsSeparate(d: Deployment) {
    forall t, u | t in d && u in d && t != u && d[t].Iam? :: !Takes(d[u], d[t].pod) && d[u] != d[t]
  }

  lemma LiteralPodsSeparate(d: Deployment)
    requires forall t | t in d && OwnerOf(d[t]).Some? :: Literal(OwnerOf(d[t]).value)
    ensures PodsSeparate(d) <==>
              forall t, u | t in d && u in d && t != u && d[t].Iam? :: OwnerOf(d[u]) != Some(d[t].pod)
  {
    forall t, u | t in d && u in d && d[t].Iam? ensures Takes(d[u], d[t].pod) <==> OwnerOf(d[u]) == Some(d[t].pod) {
      if OwnerOf(d[u]).Some? {
        LiteralMatchesItself(OwnerOf(d[u]).value, d[t].pod);
      }
    }
  }

  // ---- the invariant ----

  predicate Publishing(pc: Pc) {
    InPublish(pc) || InSharedPublish(pc)
    || (pc.Unmounting? && (pc.caller.MountFailed? || pc.caller.BindFailed? || pc.caller.OwnershipFailed?))
  }

  /** The RPC belongs to the deployment. */
  predicate Fits(d: Deployment, r: Rpc) {
    && (Publishing(r.pc) ==>
          r.target in d && (if r.iam then d[r.target] == Iam(r.pod, r.key) else d[r.target].Plain?))
    && (InCleanUp(r.pc) || (r.pc.Unmounting? && (r.pc.caller.Teardown? || r.pc.caller == Unpublishing(true))) ==>
          r.target in d && OwnerOf(d[r.target]) == Some(r.pod))
  }

  /** What the RPC knows about its own target, step by step. */
  predicate Knows(n: Node, r: Rpc) {
    match r.pc
    case BindStaged => !r.iam
    case AcquireKey(targetMounted) => r.iam && (targetMounted <==> r.target in n.bound)
    case MakeMountDir(targetMounted) => r.iam && (targetMounted <==> r.target in n.bound)
    case MakeRefsDir(targetMounted) => r.iam && (targetMounted <==> r.target in n.bound)
    case WriteToken(targetMounted) => r.iam && (targetMounted <==> r.target in n.bound)
    case ProbeGlobal(targetMounted) => r.iam && (targetMounted <==> r.target in n.bound)
    case MountGlobal(targetMounted) => r.iam && (targetMounted <==> r.target in n.bound)
    case AddRef(targetMounted) => r.iam && (targetMounted <==> r.target in n.bound)
    case Bind => r.iam && r.target !in n.bound && r.pod in RefsOf(n, r.key) && r.key in n.mounted
    case DropOwnRef => r.iam && r.target !in n.bound
    case ReleaseKey(_) => r.iam
    case Unmounting(_, MountFailed) => r.iam
    case Unmounting(_, BindFailed) => r.iam && r.target !in n.bound
    case Unmounting(RemoveDir, Unpublishing(_)) => r.target !in n.bound
    case Unmounting(_, Teardown(_, _, _)) => r.target !in n.bound
    case Glob => r.target !in n.bound
    case NextKey(_, _) => r.target !in n.bound
    case RemoveRef(_, _, _, _) => r.target !in n.bound
    case RemoveRefsDir(_, _, _) => r.target !in n.bound
    case WipeKeyDir(_, _, _) => r.target !in n.bound
    case FreeKey(_, _, _) => r.target !in n.bound
    case _ => true
  }

  predicate TenantOk(d: Deployment, n: Node, r: Rpc) {
    Fits(d, r) && Knows(n, r)
  }

  ghost predicate TenantsOk(d: Deployment, s: State) {
    Protected(d, s) && forall i | i in s.rpcs :: TenantOk(d, s.node, s.rpcs[i])
  }

  // ---- one step ----

  predicate SameTarget(m: Node, n: Node, t: Target) {
    (t in m.bound <==> t in n.bound) && (t in m.bound ==> m.bound[t] == n.bound[t])
  }

  lemma StepKeepsOtherTargets(n: Node, locks: set<LockName>, r: Rpc, c: Choice, t: Target)
    requires t != r.target
    ensures SameTarget(n, Step(n, locks, r, c).node, t)
  {
  }

  lemma StepKeepsFit(d: Deployment, n: Node, locks: set<LockName>, r: Rpc, c: Choice)
    requires Fits(d, r)
    ensures Fits(d, r.(pc := Step(n, locks, r, c).pc))
  {
  }

  lemma SharedKeepsKnowledge(n: Node, locks: set<LockName>, r: Rpc, c: Choice)
    requires RpcOk(n, r) && Knows(n, r) && !c.halfBound && InSharedPublish(r.pc)
    ensures Knows(SharedStep(n, locks, r, c).node, r.(pc := SharedStep(n, locks, r, c).pc))
  {
  }

  lemma UnmountKeepsKnowledge(n: Node, locks: set<LockName>, r: Rpc, c: Choice)
    requires Knows(n, r) && r.pc.Unmounting?
    ensures Knows(UnmountStep(n, locks, r, c).node, r.(pc := UnmountStep(n, locks, r, c).pc))
  {
  }

  lemma StepKeepsKnowledge(n: Node, locks: set<LockName>, r: Rpc, c: Choice)
    requires RpcOk(n, r) && Knows(n, r) && !c.halfBound
    ensures Knows(Step(n, locks, r, c).node, r.(pc := Step(n, locks, r, c).pc))
  {
    if InSharedPublish(r.pc) {
      SharedKeepsKnowledge(n, locks, r, c);
    } else if r.pc.Unmounting? {
      UnmountKeepsKnowledge(n, locks, r, c);
    }
  }

  lemma StepKeepsOwnTarget(d: Deployment, n: Node, locks: set<LockName>, r: Rpc, c: Choice)
    requires RpcOk(n, r) && TenantOk(d, n, r) && TargetOk(d, n, r.target) && !c.halfBound
    requires KeyOk(Step(n, locks, r, c).node, r.key)
    ensures TargetOk(d, Step(n, locks, r, c).node, r.target)
  {
  }

  /** Dropping references is where one target could hurt another: it takes the pod named in its own path. */
  lemma StepKeepsNeighbour(d: Deployment, n: Node, locks: set<LockName>, r: Rpc, c: Choice, t: Target)
    requires PodsSeparate(d) && RpcOk(n, r) && Aims(r) && TenantOk(d, n, r) && TargetOk(d, n, t) && t != r.target
    requires forall k: Key :: KeyOk(Step(n, locks, r, c).node, k)
    ensures TargetOk(d, Step(n, locks, r, c).node, t)
  {
    var m := Step(n, locks, r, c).node;
    StepKeepsOtherTargets(n, locks, r, c, t);
    if t in d && d[t].Iam? && t in m.bound {
      assert KeyOk(m, d[t].key);
      if d[t].pod !in RefsOf(m, d[t].key) {
        StepRemovesOwnReference(n, locks, r, c, d[t].key, d[t].pod);
      }
    }
  }

  lemma OthersKeepTenant(d: Deployment, m: Node, n: Node, r: Rpc)
    requires TenantOk(d, m, r) && SameTarget(m, n, r.target)
    requires HeldKey(r).Some? ==> SameKey(m, n, HeldKey(r).value)
    ensures TenantOk(d, n, r)
  {
  }

  lemma OtherTargetIsKept(s: State, id: nat, c: Choice, i: nat)
    requires LocksMatch(s) && id in s.rpcs && i in s.rpcs && i != id
    ensures SameTarget(s.node, Step(s.node, s.locks, s.rpcs[id], c).node, s.rpcs[i].target)
  {
    assert Image(s.rpcs, Holds)[i] !! Image(s.rpcs, Holds)[id];
    assert TargetLock(s.rpcs[i].target) in Holds(s.rpcs[i]);
    assert TargetLock(s.rpcs[id].target) in Holds(s.rpcs[id]);
    StepKeepsOtherTargets(s.node, s.locks, s.rpcs[id], c, s.rpcs[i].target);
  }

  lemma MoveKeepsTargets(d: Deployment, s: State, id: nat, c: Choice)
    requires PodsSeparate(d) && Safe(s) && TenantsOk(d, s) && id in s.rpcs && Aims(s.rpcs[id]) && !c.halfBound
    ensures Protected(d, Apply(s, Move(id, c)))
  {
    var s', r := Apply(s, Move(id, c)), s.rpcs[id];
    ApplyKeepsSafe(s, Move(id, c));
    forall t: Target ensures TargetOk(d, s'.node, t) {
      assert TargetOk(d, s.node, t) && TenantOk(d, s.node, r);
      if t == r.target {
        StepKeepsOwnTarget(d, s.node, s.locks, r, c);
      } else {
        StepKeepsNeighbour(d, s.node, s.locks, r, c, t);
      }
    }
  }

  lemma MoveKeepsTenants(d: Deployment, s: State, id: nat, c: Choice)
    requires PodsSeparate(d) && Safe(s) && TenantsOk(d, s) && id in s.rpcs && Aims(s.rpcs[id]) && !c.halfBound
    ensures TenantsOk(d, Apply(s, Move(id, c)))
  {
    var s', r := Apply(s, Move(id, c)), s.rpcs[id];
    MoveKeepsTargets(d, s, id, c);
    assert TenantOk(d, s.node, r) && RpcOk(s.node, r);
    forall i | i in s'.rpcs ensures TenantOk(d, s'.node, s'.rpcs[i]) {
      if i == id {
        StepKeepsFit(d, s.node, s.locks, r, c);
        StepKeepsKnowledge(s.node, s.locks, r, c);
      } else {
        OtherTargetIsKept(s, id, c, i);
        if HeldKey(s.rpcs[i]).Some? {
          OtherKeyIsKept(s, id, c, i);
        }
        OthersKeepTenant(d, s.node, s'.node, s.rpcs[i]);
      }
    }
  }

  lemma {:induction false} RunKeepsTenants(d: Deployment, tr: seq<Event>)
    requires PodsSeparate(d) && forall e | e in tr :: Drawn(d, false, e)
    ensures TenantsOk(d, Run(tr))
  {
    if tr != [] {
      var s, e := Run(tr[..|tr| - 1]), tr[|tr| - 1];
      RunKeepsTenants(d, tr[..|tr| - 1]);
      RunIsSafe(tr[..|tr| - 1]);
      assert Drawn(d, false, e);
      if e.Begin? {
        assert TenantOk(d, s.node, Started(e.req));
      } else if e.id in s.rpcs {
        RunAims(tr[..|tr| - 1], e.id);
        MoveKeepsTenants(d, s, e.id, e.choice);
      }
    }
  }

  // ---- the failing runs ----

  const WORKS := Choice(true, false, false, true, [])
  const HALF_BINDS := Choice(false, false, true, true, [])

  /** A state with one RPC in flight. */
  function Lone(o: Outcome, r: Rpc): State {
    State(o.locks, o.node, map[0 := r.(pc := o.pc)])
  }

  lemma GoOn(tr: seq<Event>, r: Rpc, o: Outcome, c: Choice) returns (tr': seq<Event>, o': Outcome)
    requires Run(tr) == Lone(o, r) && !Step(o.node, o.locks, r.(pc := o.pc), c).pc.Done?
    ensures o' == Step(o.node, o.locks, r.(pc := o.pc), c)
    ensures tr' == tr + [Move(0, c)] && Run(tr') == Lone(o', r)
  {
    tr', o' := tr + [Move(0, c)], Step(o.node, o.locks, r.(pc := o.pc), c);
    assert tr'[..|tr|] == tr;
  }

  // The same by kind of step.

  lemma PublishOn(tr: seq<Event>, r: Rpc, o: Outcome, c: Choice) returns (tr': seq<Event>, o': Outcome)
    requires Run(tr) == Lone(o, r) && InPublish(o.pc)
    ensures o' == PublishStep(o.node, o.locks, r.(pc := o.pc), c)
    ensures tr' == tr + [Move(0, c)] && Run(tr') == Lone(o', r)
  {
    tr', o' := GoOn(tr, r, o, c);
  }

  lemma SharedOn(tr: seq<Event>, r: Rpc, o: Outcome, c: Choice) returns (tr': seq<Event>, o': Outcome)
    requires Run(tr) == Lone(o, r) && InSharedPublish(o.pc)
    ensures o' == SharedStep(o.node, o.locks, r.(pc := o.pc), c)
    ensures tr' == tr + [Move(0, c)] && Run(tr') == Lone(o', r)
  {
    tr', o' := GoOn(tr, r, o, c);
  }

  lemma UnmountOn(tr: seq<Event>, r: Rpc, o: Outcome, c: Choice) returns (tr': seq<Event>, o': Outcome)
    requires Run(tr) == Lone(o, r) && o.pc.Unmounting?
    ensures o' == UnmountStep(o.node, o.locks, r.(pc := o.pc), c)
    ensures tr' == tr + [Move(0, c)] && Run(tr') == Lone(o', r)
  {
    tr', o' := GoOn(tr, r, o, c);
  }

  lemma CleanUpOn(tr: seq<Event>, r: Rpc, o: Outcome, c: Choice) returns (tr': seq<Event>, o': Outcome)
    requires Run(tr) == Lone(o, r) && InCleanUp(o.pc)
    ensures o' == CleanUpStep(o.node, o.locks, r.(pc := o.pc), c)
    ensures tr' == tr + [Move(0, c)] && Run(tr') == Lone(o', r)
  {
    tr', o' := GoOn(tr, r, o, c);
  }

  lemma Start(tr: seq<Event>, req: Request) returns (tr': seq<Event>, o: Outcome)
    requires Idle(tr)
    ensures tr' == tr + [Begin(0, req)] && o == Outcome(Run(tr).node, {TargetLock(req.target)}, Started(req).pc)
    ensures Run(tr') == Lone(o, Started(req))
  {
    tr', o := tr + [Begin(0, req)], Outcome(Run(tr).node, {TargetLock(req.target)}, Started(req).pc);
    assert tr'[..|tr|] == tr;
  }

  /** The last event ended RPC 0 with this answer. */
  predicate Answers(tr: seq<Event>, reply: Reply) {
    tr != [] && tr[|tr| - 1] == Move(0, WORKS) &&
    var s := Run(tr[..|tr| - 1]); 0 in s.rpcs && s.rpcs[0].pc == ReleaseTarget(reply)
  }

  lemma Finish(tr: seq<Event>, r: Rpc, o: Outcome) returns (tr': seq<Event>)
    requires Run(tr) == Lone(o, r) && o.pc.ReleaseTarget? && o.locks == {TargetLock(r.target)}
    ensures tr' == tr + [Move(0, WORKS)] && Run(tr') == State({}, o.node, map[]) && Answers(tr', o.pc.reply)
  {
    tr' := tr + [Move(0, WORKS)];
    assert tr'[..|tr|] == tr;
  }

  predicate PublishEvent(e: Event, t: Target, p: Pod, k: Key) {
    e == Begin(0, Publish(t, p, k, true)) || e == Move(0, WORKS)
  }

  /** Nothing is in flight. */
  predicate Idle(tr: seq<Event>) {
    Run(tr).rpcs == map[] && Run(tr).locks == {}
  }

  /** tr' goes on from tr with the events of one publish. */
  predicate Publishes(tr: seq<Event>, tr': seq<Event>, r: Rpc) {
    tr <= tr' && forall i | |tr| <= i < |tr'| :: PublishEvent(tr'[i], r.target, r.pod, r.key)
  }

  predicate Fresh(tr: seq<Event>, r: Rpc) {
    Idle(tr) && r.target !in Run(tr).node.bound && r.iam && r.pc.MakeTargetDir?
  }

  /** Publishing an IAM volume with nothing else going on: the key is locked. */
  lemma PublishUpToKey(tr: seq<Event>, r: Rpc) returns (tr': seq<Event>, o: Outcome)
    requires Fresh(tr, r)
    ensures Run(tr') == Lone(o, r) && Publishes(tr, tr', r)
    ensures o == Outcome(Run(tr).node, {TargetLock(r.target), KeyLock(r.key)}, MakeMountDir(false))
  {
    tr', o := Start(tr, Publish(r.target, r.pod, r.key, true));
    tr', o := PublishOn(tr', r, o, WORKS);
    tr', o := PublishOn(tr', r, o, WORKS);
    tr', o := PublishOn(tr', r, o, WORKS);
  }

  /** The directories of the key are made. */
  lemma PublishUpToToken(tr: seq<Event>, r: Rpc) returns (tr': seq<Event>, o: Outcome)
    requires Fresh(tr, r)
    ensures Run(tr') == Lone(o, r) && Publishes(tr, tr', r)
    ensures var n := Run(tr).node;
            o == Outcome(WithRefsDir(n.(mountDirs := n.mountDirs + {r.key}), r.key),
                         {TargetLock(r.target), KeyLock(r.key)}, WriteToken(false))
  {
    tr', o := PublishUpToKey(tr, r);
    tr', o := SharedOn(tr', r, o, WORKS);
    tr', o := SharedOn(tr', r, o, WORKS);
  }

  /** The node once the directories of a key are made and its token is written. */
  function Prepared(n: Node, k: Key): Node {
    WithRefsDir(n.(mountDirs := n.mountDirs + {k}, tokens := n.tokens + {k}), k)
  }

  /** The token is written. */
  lemma PublishUpToProbe(tr: seq<Event>, r: Rpc) returns (tr': seq<Event>, o: Outcome)
    requires Fresh(tr, r)
    ensures Run(tr') == Lone(o, r) && Publishes(tr, tr', r)
    ensures var n := Run(tr).node;
            o == Outcome(Prepared(n, r.key), {TargetLock(r.target), KeyLock(r.key)}, ProbeGlobal(false))
  {
    tr', o := PublishUpToToken(tr, r);
    tr', o := SharedOn(tr', r, o, WORKS);
  }

  /** The shared mount is there: it was already, or it is mounted now. */
  lemma PublishUpToRef(tr: seq<Event>, r: Rpc) returns (tr': seq<Event>, o: Outcome)
    requires Fresh(tr, r)
    ensures Run(tr') == Lone(o, r) && Publishes(tr, tr', r)
    ensures var n := Run(tr).node;
            o == Outcome(Prepared(n, r.key).(mounted := n.mounted + {r.key}),
                         {TargetLock(r.target), KeyLock(r.key)}, AddRef(false))
  {
    tr', o := PublishUpToProbe(tr, r);
    tr', o := SharedOn(tr', r, o, WORKS);
    if o.pc.MountGlobal? {
      tr', o := SharedOn(tr', r, o, WORKS);
    } else {
      assert Run(tr).node.mounted + {r.key} == Run(tr).node.mounted;
    }
  }

  /** The node once a pod refers to a key. */
  function Referenced(n: Node, k: Key, p: Pod): Node {
    n.(refs := n.refs[k := RefsOf(n, k) + {p}], mountDirs := n.mountDirs + {k}, tokens := n.tokens + {k},
       mounted := n.mounted + {k})
  }

  /** The reference is written, and the target is about to be bound. */
  lemma PublishUpToBind(tr: seq<Event>, r: Rpc) returns (tr': seq<Event>, o: Outcome)
    requires Fresh(tr, r)
    ensures Run(tr') == Lone(o, r) && Publishes(tr, tr', r)
    ensures o == Outcome(Referenced(Run(tr).node, r.key, r.pod), {TargetLock(r.target), KeyLock(r.key)}, Bind)
  {
    var n := Run(tr).node;
    tr', o := PublishUpToRef(tr, r);
    assert o.node.refs[r.key := RefsOf(n, r.key) + {r.pod}] == n.refs[r.key := RefsOf(n, r.key) + {r.pod}];
    tr', o := SharedOn(tr', r, o, WORKS);
  }

  lemma BindHalfway(t: Target, p: Pod, k: Key) returns (tr: seq<Event>, o: Outcome)
    ensures Run(tr) == Lone(o, Rpc(t, p, k, true, MakeTargetDir)) && o.pc == DropOwnRef
    ensures t in o.node.bound && RefsOf(o.node, k) == {p}
    ensures forall e | e in tr :: PublishEvent(e, t, p, k) || e == Move(0, HALF_BINDS)
  {
    var r := Rpc(t, p, k, true, MakeTargetDir);
    tr, o := PublishUpToBind([], r);
    tr, o := SharedOn(tr, r, o, HALF_BINDS);
  }

  /** A bind that fails and leaves the target bound: the code drops the reference before it unmounts the target. */
  lemma DirtyBindLosesReference(t: Target, p: Pod, k: Key) returns (tr: seq<Event>)
    ensures t in Run(tr).node.bound && RefsOf(Run(tr).node, k) == {}
    ensures forall e | e in tr :: PublishEvent(e, t, p, k) || e == Move(0, HALF_BINDS)
  {
    var o := Outcome(INITIAL.node, {}, Done);
    tr, o := BindHalfway(t, p, k);
    tr, o := SharedOn(tr, Rpc(t, p, k, true, MakeTargetDir), o, WORKS);
  }

  /** The target is bound and the key given back. */
  lemma PublishUpToOwnership(tr: seq<Event>, r: Rpc) returns (tr': seq<Event>, o: Outcome)
    requires Fresh(tr, r)
    ensures Run(tr') == Lone(o, r) && Publishes(tr, tr', r)
    ensures var n := Referenced(Run(tr).node, r.key, r.pod);
            o == Outcome(n.(bound := n.bound[r.target := Shared(r.key)]), {TargetLock(r.target)}, SetOwnership)
  {
    tr', o := PublishUpToBind(tr, r);
    tr', o := SharedOn(tr', r, o, WORKS);
    tr', o := SharedOn(tr', r, o, WORKS);
  }

  /** The whole publish: one more reference, the target bound, and nothing in flight any more. */
  lemma PublishAlone(tr: seq<Event>, r: Rpc) returns (tr': seq<Event>)
    requires Fresh(tr, r)
    ensures Idle(tr') && Publishes(tr, tr', r) && Answers(tr', Published)
    ensures var n := Referenced(Run(tr).node, r.key, r.pod);
            Run(tr').node == n.(bound := n.bound[r.target := Shared(r.key)])
  {
    var o := Outcome(INITIAL.node, {}, Done);
    tr', o := PublishUpToOwnership(tr, r);
    tr', o := PublishOn(tr', r, o, WORKS);
    tr' := Finish(tr', r, o);
  }

  /** Unpublishing a target that is not bound: on to the references of the pod in its path. */
  lemma UnpublishUpToGlob(tr: seq<Event>, u: Target, p: Pod) returns (tr': seq<Event>, o: Outcome)
    requires Idle(tr) && u !in Run(tr).node.bound
    ensures Run(tr') == Lone(o, Started(Unpublish(u, Some(p))))
    ensures o == Outcome(Run(tr).node, {TargetLock(u)}, Glob)
    ensures forall e | e in tr' :: e in tr || e == Begin(0, Unpublish(u, Some(p))) || e == Move(0, WORKS)
  {
    var r := Started(Unpublish(u, Some(p)));
    tr', o := Start(tr, Unpublish(u, Some(p)));
    tr', o := UnmountOn(tr', r, o, WORKS);
    tr', o := UnmountOn(tr', r, o, WORKS);
  }

  /** The glob finds one marker that fits, and its key is locked. */
  lemma UnpublishUpToRef(tr: seq<Event>, u: Target, q: Pod, k: Key, p: Pod) returns (tr': seq<Event>, o: Outcome)
    requires Idle(tr) && u !in Run(tr).node.bound && Match(q, p)
    ensures Run(tr') == Lone(o, Started(Unpublish(u, Some(q))))
    ensures o.node == Run(tr).node && o.pc == RemoveRef(k, p, [], true)
    ensures forall e | e in tr' :: e in tr || e == Begin(0, Unpublish(u, Some(q))) || (e.Move? && !e.choice.halfBound)
  {
    var r := Started(Unpublish(u, Some(q)));
    MatchIsWellFormed(q, p);
    tr', o := UnpublishUpToGlob(tr, u, q);
    tr', o := CleanUpOn(tr', r, o, WORKS.(matches := [Ref(k, p)]));
    tr', o := CleanUpOn(tr', r, o, WORKS);
  }

  /** The last reference of a key is removed, and the refs directory with it. */
  lemma DropLastRef(tr: seq<Event>, r: Rpc, o: Outcome, k: Key, p: Pod) returns (tr': seq<Event>, o': Outcome)
    requires Run(tr) == Lone(o, r) && o.pc == RemoveRef(k, p, [], true) && RefsOf(o.node, k) == {p}
    ensures Run(tr') == Lone(o', r) && o'.node.bound == o.node.bound
    ensures o'.pc == Unmounting(Probe, Teardown(k, [], true))
    ensures forall e | e in tr' :: e in tr || e == Move(0, WORKS)
  {
    tr', o' := CleanUpOn(tr, r, o, WORKS);
    assert o'.pc == RemoveRefsDir(k, [], true) && k in o'.node.refs && o'.node.refs[k] == {};
    tr', o' := CleanUpOn(tr', r, o', WORKS);
  }

  lemma UmountShared(tr: seq<Event>, r: Rpc, o: Outcome, k: Key) returns (tr': seq<Event>)
    requires Run(tr) == Lone(o, r) && o.pc == Unmounting(Standard, Teardown(k, [], true))
    ensures Run(tr').node.bound == o.node.bound && k !in Run(tr').node.mounted && tr' == tr + [Move(0, WORKS)]
  {
    var o' := o;
    tr', o' := UnmountOn(tr, r, o, WORKS);
  }

  lemma UnmountShared(tr: seq<Event>, r: Rpc, o: Outcome, k: Key) returns (tr': seq<Event>)
    requires Run(tr) == Lone(o, r) && o.pc == Unmounting(Probe, Teardown(k, [], true))
    ensures Run(tr').node.bound == o.node.bound && k !in Run(tr').node.mounted
    ensures forall e | e in tr' :: e in tr || e == Move(0, WORKS)
  {
    var o' := o;
    tr', o' := UnmountOn(tr, r, o, WORKS);
    assert o'.node == o.node;
    if k in o.node.mounted {
      tr' := UmountShared(tr', r, o', k);
    }
  }

  /** The only published volume belongs to one pod, and the unpublish of a target of a matching pod is at its marker. */
  lemma NeighbourFindsMarker(t: Target, p: Pod, k: Key, u: Target, q: Pod) returns (tr: seq<Event>, o: Outcome)
    requires t != u && Match(q, p)
    ensures Run(tr) == Lone(o, Started(Unpublish(u, Some(q)))) && o.pc == RemoveRef(k, p, [], true)
    ensures t in o.node.bound && RefsOf(o.node, k) == {p}
    ensures forall e | e in tr ::
              PublishEvent(e, t, p, k) || e == Begin(0, Unpublish(u, Some(q))) || (e.Move? && !e.choice.halfBound)
  {
    tr := PublishAlone([], Rpc(t, p, k, true, MakeTargetDir));
    tr, o := UnpublishUpToRef(tr, u, q, k, p);
  }

  /** Unpublishing a target whose pod matches tears the shared mount down under the bound target. */
  lemma NeighbourTearsDown(t: Target, p: Pod, k: Key, u: Target, q: Pod) returns (tr: seq<Event>)
    requires t != u && Match(q, p)
    ensures t in Run(tr).node.bound && k !in Run(tr).node.mounted
    ensures forall e | e in tr ::
              PublishEvent(e, t, p, k) || e == Begin(0, Unpublish(u, Some(q))) || (e.Move? && !e.choice.halfBound)
  {
    var r, o := Started(Unpublish(u, Some(q))), Outcome(INITIAL.node, {}, Done);
    tr, o := NeighbourFindsMarker(t, p, k, u, q);
    tr, o := DropLastRef(tr, r, o, k, p);
    tr := UnmountShared(tr, r, o, k);
  }

  /** The event is a step of an RPC of pod q that removes the reference of pod p. */
  predicate RemovedBy(tr: seq<Event>, e: Event, k: Key, p: Pod, q: Pod) {
    Removes(tr, e, k, p) && e.id in Run(tr).rpcs && Run(tr).rpcs[e.id].pod == q
  }

  /** A pod UID is the name of a marker file. */
  predicate IsName(p: Pod) {
    p != "" && '/' !in p && '\\' !in p && p != "." && p != ".."
  }

  ghost predicate MatchesOnlyItself(q: Pod) {
    forall p: Pod | IsName(p) && Match(q, p) :: p == q
  }

  /** For any pod UID that matches another, a run in which it removes the other's reference. */
  lemma PatternRemovesOthers(p: Pod, k: Key, q: Pod) returns (tr: seq<Event>)
    requires Match(q, p)
    ensures RemovedBy(tr, Move(0, WORKS), k, p, q)
  {
    var o := Outcome(INITIAL.node, {}, Done);
    tr, o := NeighbourFindsMarker("/t", p, k, "/u", q);
    assert (tr + [Move(0, WORKS)])[..|tr|] == tr;
  }

  lemma UnmatchedRemovesOwn(tr: seq<Event>, e: Event, k: Key, p: Pod, q: Pod)
    requires MatchesOnlyItself(q) && IsName(p) && RemovedBy(tr, e, k, p, q)
    ensures p == q
  {
    OnlyMatchingReferenceIsRemoved(tr, e, k, p);
  }

  /** Such as a UID that ends in a star: it removes the reference of every pod whose UID begins with the rest. */
  lemma StarRemovesOthers(p: Pod, more: string, k: Key) returns (tr: seq<Event>)
    requires Literal(p) && '/' !in more
    ensures RemovedBy(tr, Move(0, WORKS), k, p + more, p + "*")
  {
    StarMatchesMore(p, more);
    tr := PatternRemovesOthers(p + more, k, p + "*");
  }

  /**
   The exact condition on the pod UID in a target path: its RPCs never remove another pod's reference, in any
   run, if and only if it matches no other UID as a pattern. GlobPatterns.LiteralMatchesItself: a UID without
   pattern characters does not.
   */
  lemma OnlyOwnExactlyWhenUnmatched(q: Pod)
    ensures (forall tr: seq<Event>, e: Event, k: Key, p: Pod | IsName(p) && RemovedBy(tr, e, k, p, q) :: p == q)
       <==> MatchesOnlyItself(q)
  {
    if MatchesOnlyItself(q) {
      forall tr: seq<Event>, e: Event, k: Key, p: Pod | IsName(p) && RemovedBy(tr, e, k, p, q) ensures p == q {
        UnmatchedRemovesOwn(tr, e, k, p, q);
      }
    } else {
      var p: Pod :| IsName(p) && Match(q, p) && p != q;
      var tr := PatternRemovesOthers(p, "k", q);
    }
  }

  const BIND_FAILS := Choice(false, false, false, true, [])

  /** A second target of the same pod and key whose bind fails takes the reference of the first with it. */
  lemma FailedBindTakesReference(t: Target, p: Pod, k: Key, u: Target) returns (tr: seq<Event>)
    requires t != u
    ensures t in Run(tr).node.bound && RefsOf(Run(tr).node, k) == {}
    ensures forall e | e in tr :: PublishEvent(e, t, p, k) || PublishEvent(e, u, p, k) || e == Move(0, BIND_FAILS)
  {
    var r, o := Rpc(u, p, k, true, MakeTargetDir), Outcome(INITIAL.node, {}, Done);
    tr := PublishAlone([], Rpc(t, p, k, true, MakeTargetDir));
    tr, o := PublishUpToBind(tr, r);
    tr := DropAfterBind(tr, r, o);
  }

  lemma DropAfterBind(tr: seq<Event>, r: Rpc, o: Outcome) returns (tr': seq<Event>)
    requires Run(tr) == Lone(o, r) && o.pc == Bind && RefsOf(o.node, r.key) == {r.pod}
    ensures Run(tr').node.bound == o.node.bound && RefsOf(Run(tr').node, r.key) == {}
    ensures forall e | e in tr' :: e in tr || e == Move(0, WORKS) || e == Move(0, BIND_FAILS)
  {
    var o' := o;
    tr', o' := SharedOn(tr, r, o, BIND_FAILS);
    tr', o' := SharedOn(tr', r, o', WORKS);
  }

  lemma SeparationIsNeeded(d: Deployment, dirtyBinds: bool, t: Target, u: Target) returns (tr: seq<Event>)
    requires t in d && u in d && t != u && d[t].Iam? && (Takes(d[u], d[t].pod) || d[u] == d[t])
    ensures (forall e | e in tr :: Drawn(d, dirtyBinds, e)) && !TargetOk(d, Run(tr).node, t)
  {
    if Takes(d[u], d[t].pod) {
      tr := NeighbourTearsDown(t, d[t].pod, d[t].key, u, OwnerOf(d[u]).value);
    } else {
      tr := FailedBindTakesReference(t, d[t].pod, d[t].key, u);
    }
  }

  /**
   The exact condition: every run of a deployment keeps every bound IAM target referenced and its
   shared mount mounted, if and only if no other target takes its reference, and either no bind that
   fails leaves its target bound or the deployment has no IAM volume at all.
   */
  lemma BoundTargetsAreProtected(d: Deployment, dirtyBinds: bool)
    ensures (forall tr: seq<Event> | (forall e | e in tr :: Drawn(d, dirtyBinds, e)) :: Protected(d, Run(tr)))
       <==> PodsSeparate(d) && (!dirtyBinds || forall t | t in d :: d[t].Plain?)
  {
    if PodsSeparate(d) && (!dirtyBinds || forall t | t in d :: d[t].Plain?) {
      forall tr: seq<Event> | (forall e | e in tr :: Drawn(d, dirtyBinds, e)) ensures Protected(d, Run(tr)) {
        if !dirtyBinds {
          RunKeepsTenants(d, tr);
        }
      }
    } else if !PodsSeparate(d) {
      var t, u :| t in d && u in d && t != u && d[t].Iam? && (Takes(d[u], d[t].pod) || d[u] == d[t]);
      var tr := SeparationIsNeeded(d, dirtyBinds, t, u);
    } else {
      var t :| t in d && d[t].Iam?;
      var tr := DirtyBindLosesReference(t, d[t].pod, d[t].key);
      assert (forall e | e in tr :: Drawn(d, dirtyBinds, e)) && !TargetOk(d, Run(tr).node, t);
    }
  }
}
