/**
 What the answer of an RPC means, over every interleaving and every fault: a publish that answers success has its
 target bound, an unpublish that does has it unbound, and an RPC answers failure exactly when one of its steps failed
 in a way the driver reports.
 */
module SharedMountReplies {
  import opened Options
  import opened GlobPatterns
  import opened SharedMounts
  import opened SharedMountSafety
  import opened SharedMountTenancy

  /** What an RPC may rely on about its own target. */
  predicate Sees(n: Node, r: Rpc) {
    match r.pc
    case AcquireKey(targetMounted) => targetMounted ==> r.target in n.bound
    case MakeMountDir(targetMounted) => targetMounted ==> r.target in n.bound
    case MakeRefsDir(targetMounted) => targetMounted ==> r.target in n.bound
    case WriteToken(targetMounted) => targetMounted ==> r.target in n.bound
    case ProbeGlobal(targetMounted) => targetMounted ==> r.target in n.bound
    case MountGlobal(targetMounted) => targetMounted ==> r.target in n.bound
    case AddRef(targetMounted) => targetMounted ==> r.target in n.bound
    case ReleaseKey(published) => published ==> r.target in n.bound
    case SetOwnership => r.target in n.bound
    case Unmounting(RemoveDir, Unpublishing(_)) => r.target !in n.bound
    case Unmounting(_, Teardown(_, _, _)) => r.target !in n.bound
    case Glob => r.target !in n.bound
    case NextKey(_, _) => r.target !in n.bound
    case RemoveRef(_, _, _, _) => r.target !in n.bound
    case RemoveRefsDir(_, _, _) => r.target !in n.bound
    case WipeKeyDir(_, _, _) => r.target !in n.bound
    case FreeKey(_, _, _) => r.target !in n.bound
    case ReleaseTarget(Published) => r.target in n.bound
    case ReleaseTarget(Unpublished) => r.target !in n.bound
    case _ => true
  }

  lemma PublishSees(n: Node, locks: set<LockName>, r: Rpc, c: Choice)
    requires Sees(n, r) && InPublish(r.pc)
    ensures Sees(PublishStep(n, locks, r, c).node, r.(pc := PublishStep(n, locks, r, c).pc))
  {
  }

  lemma SharedSees(n: Node, locks: set<LockName>, r: Rpc, c: Choice)
    requires Sees(n, r) && InSharedPublish(r.pc)
    ensures Sees(SharedStep(n, locks, r, c).node, r.(pc := SharedStep(n, locks, r, c).pc))
  {
  }

  lemma UnmountSees(n: Node, locks: set<LockName>, r: Rpc, c: Choice)
    requires Sees(n, r) && r.pc.Unmounting?
    ensures Sees(UnmountStep(n, locks, r, c).node, r.(pc := UnmountStep(n, locks, r, c).pc))
  {
  }

  lemma CleanUpSees(n: Node, locks: set<LockName>, r: Rpc, c: Choice)
    requires Sees(n, r) && InCleanUp(r.pc)
    ensures Sees(CleanUpStep(n, locks, r, c).node, r.(pc := CleanUpStep(n, locks, r, c).pc))
  {
  }

  lemma StepSees(n: Node, locks: set<LockName>, r: Rpc, c: Choice)
    requires Sees(n, r)
    ensures Sees(Step(n, locks, r, c).node, r.(pc := Step(n, locks, r, c).pc))
  {
    if InPublish(r.pc) {
      PublishSees(n, locks, r, c);
    } else if InSharedPublish(r.pc) {
      SharedSees(n, locks, r, c);
    } else if InCleanUp(r.pc) {
      CleanUpSees(n, locks, r, c);
    } else if r.pc.Unmounting? {
      UnmountSees(n, locks, r, c);
    }
  }

  lemma OthersSee(m: Node, n: Node, r: Rpc)
    requires Sees(m, r) && SameTarget(m, n, r.target)
    ensures Sees(n, r)
  {
  }

  lemma {:induction false} RunSees(tr: seq<Event>, i: nat)
    requires i in Run(tr).rpcs
    ensures Sees(Run(tr).node, Run(tr).rpcs[i])
  {
    var s, e := Run(tr[..|tr| - 1]), tr[|tr| - 1];
    if i in s.rpcs {
      RunSees(tr[..|tr| - 1], i);
      RunIsSafe(tr[..|tr| - 1]);
      if e.Move? && e.id == i {
        StepSees(s.node, s.locks, s.rpcs[i], e.choice);
      } else if e.Move? && e.id in s.rpcs {
        OtherTargetIsKept(s, e.id, e.choice, i);
        OthersSee(s.node, Run(tr).node, s.rpcs[i]);
      }
    }
  }

  /** A publish that answers success has its target bound, and an unpublish that does has it unbound. */
  lemma RepliesAreTrue(tr: seq<Event>, i: nat)
    requires i in Run(tr).rpcs && Run(tr).rpcs[i].pc.ReleaseTarget?
    ensures var (n, r) := (Run(tr).node, Run(tr).rpcs[i]);
            && (r.pc.reply == Published ==> r.target in n.bound)
            && (r.pc.reply == Unpublished ==> r.target !in n.bound)
  {
    RunSees(tr, i);
  }

  /** The ownership is set of a bound target only. */
  lemma OwnershipIsOfBound(tr: seq<Event>, i: nat)
    requires i in Run(tr).rpcs && Run(tr).rpcs[i].pc.SetOwnership?
    ensures Run(tr).rpcs[i].target in Run(tr).node.bound
  {
    RunSees(tr, i);
  }

  // ---- success and failure ----

  /** The step fails in a way the driver reports: a call, the request's data, or a lock that is taken. */
  predicate Fatal(n: Node, locks: set<LockName>, r: Rpc, c: Choice) {
    match r.pc
    case MakeTargetDir => !c.ok
    case ProbeTarget => !c.ok || (r.iam && !c.accept)
    case BindStaged => !c.ok
    case AcquireKey(_) => KeyLock(r.key) in locks
    case SetOwnership => !c.ok || !c.accept
    case MakeMountDir(_) => !c.ok
    case MakeRefsDir(_) => !c.ok
    case WriteToken(_) => !c.ok || !c.accept
    case ProbeGlobal(_) => !c.ok
    case MountGlobal(_) => !c.ok || !c.accept
    case AddRef(_) => !c.ok || r.key !in n.refs
    case Bind => !c.ok
    case Unmounting(phase, caller) =>
      !c.ok && (phase.Lazy? || phase.RemoveDir?) && (caller.Unpublishing? || caller.Teardown?)
    case Glob => !WellFormed(r.pod)
    case NextKey(todo, _) => todo != [] && KeyLock(todo[0].key) in locks
    case RemoveRef(_, _, _, _) => !c.ok
    case RemoveRefsDir(k, _, _) => !c.ok && k in n.refs && n.refs[k] == {}
    case WipeKeyDir(_, _, _) => !c.ok
    case Staging => !c.ok && !c.accept
    case _ => false
  }

  /** The RPC is on its way to an answer of failure. */
  predicate Doomed(pc: Pc) {
    match pc
    case DropOwnRef => true
    case ReleaseKey(published) => !published
    case Unmounting(_, Teardown(_, _, clean)) => !clean
    case Unmounting(_, caller) => !caller.Unpublishing?
    case NextKey(_, clean) => !clean
    case RemoveRef(_, _, _, clean) => !clean
    case RemoveRefsDir(_, _, clean) => !clean
    case WipeKeyDir(_, _, clean) => !clean
    case FreeKey(_, _, clean) => !clean
    case ReleaseTarget(reply) => reply.Failed?
    case _ => false
  }

  predicate Turns(n: Node, locks: set<LockName>, r: Rpc, c: Choice, o: Outcome) {
    Doomed(o.pc) <==> Doomed(r.pc) || Fatal(n, locks, r, c)
  }

  lemma PublishTurns(n: Node, locks: set<LockName>, r: Rpc, c: Choice)
    requires InPublish(r.pc)
    ensures Turns(n, locks, r, c, PublishStep(n, locks, r, c))
  {
  }

  lemma SharedTurns(n: Node, locks: set<LockName>, r: Rpc, c: Choice)
    requires InSharedPublish(r.pc)
    ensures Turns(n, locks, r, c, SharedStep(n, locks, r, c))
  {
  }

  lemma UnmountTurns(n: Node, locks: set<LockName>, r: Rpc, c: Choice)
    requires r.pc.Unmounting?
    ensures Turns(n, locks, r, c, UnmountStep(n, locks, r, c))
  {
  }

  lemma CleanUpTurns(n: Node, locks: set<LockName>, r: Rpc, c: Choice)
    requires InCleanUp(r.pc)
    ensures Turns(n, locks, r, c, CleanUpStep(n, locks, r, c))
  {
  }

  lemma StepTurns(n: Node, locks: set<LockName>, r: Rpc, c: Choice)
    requires !r.pc.ReleaseTarget? && !r.pc.Done?
    ensures Turns(n, locks, r, c, Step(n, locks, r, c))
  {
    if InPublish(r.pc) {
      PublishTurns(n, locks, r, c);
    } else if InSharedPublish(r.pc) {
      SharedTurns(n, locks, r, c);
    } else if InCleanUp(r.pc) {
      CleanUpTurns(n, locks, r, c);
    } else if r.pc.Unmounting? {
      UnmountTurns(n, locks, r, c);
    }
  }

  /** Some step of the RPC has failed since it began. */
  predicate Faulted(tr: seq<Event>, i: nat) {
    if tr == [] then false
    else
      var s, e := Run(tr[..|tr| - 1]), tr[|tr| - 1];
      i in s.rpcs &&
      (Faulted(tr[..|tr| - 1], i) || (e.Move? && e.id == i && Fatal(s.node, s.locks, s.rpcs[i], e.choice)))
  }

  lemma {:induction false} DoomedExactlyWhenFaulted(tr: seq<Event>, i: nat)
    requires i in Run(tr).rpcs
    ensures Doomed(Run(tr).rpcs[i].pc) <==> Faulted(tr, i)
  {
    var s, e := Run(tr[..|tr| - 1]), tr[|tr| - 1];
    if i in s.rpcs {
      DoomedExactlyWhenFaulted(tr[..|tr| - 1], i);
      RunIsSafe(tr[..|tr| - 1]);
      assert RpcOk(s.node, s.rpcs[i]);
      if e.Move? && e.id == i {
        StepTurns(s.node, s.locks, s.rpcs[i], e.choice);
      }
    }
  }

  /** In every run an RPC answers failure exactly when one of its steps failed. */
  lemma FailsExactlyWhenFaulted(tr: seq<Event>, i: nat)
    requires i in Run(tr).rpcs && Run(tr).rpcs[i].pc.ReleaseTarget?
    ensures Run(tr).rpcs[i].pc.reply == Failed <==> Faulted(tr, i)
  {
    DoomedExactlyWhenFaulted(tr, i);
  }
}
