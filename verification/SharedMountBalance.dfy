/**
 Runs without operating-system faults. Requests may still be bad, locks may be contended,
 pods may use several volumes and the glob may return anything: whenever the lock of a key
 is free, its shared mount is mounted exactly when some pod refers to it.
 */
module SharedMountBalance {
  import opened Options
  import opened SharedMounts
  import opened SharedMountSafety
  import opened VolumeLocks

  predicate FaultFree(e: Event) {
    e.Move? ==> e.choice.ok
  }

  predicate Balanced(n: Node, k: Key) {
    k in n.mounted <==> RefsOf(n, k) != {}
  }

  /** How far the key locked by an RPC is from balance, step by step. */
  predicate RpcBalanced(n: Node, r: Rpc) {
    match r.pc
    case MakeMountDir(_) => Balanced(n, r.key)
    case MakeRefsDir(_) => Balanced(n, r.key)
    case WriteToken(_) => Balanced(n, r.key) && r.key in n.refs
    case ProbeGlobal(_) => Balanced(n, r.key) && r.key in n.refs
    case MountGlobal(_) => RefsOf(n, r.key) == {} && r.key !in n.mounted && r.key in n.refs
    case AddRef(_) => r.key in n.mounted && r.key in n.refs
    case Bind => Balanced(n, r.key)
    case DropOwnRef => false
    case ReleaseKey(_) => Balanced(n, r.key)
    case Unmounting(Force, _) => false
    case Unmounting(Lazy, _) => false
    case Unmounting(_, MountFailed) => false
    case Unmounting(_, BindFailed) => false
    case Unmounting(phase, Teardown(k, _, _)) => k !in n.refs && (phase.RemoveDir? ==> k !in n.mounted)
    case RemoveRef(k, _, _, _) => Balanced(n, k)
    case RemoveRefsDir(k, _, _) => (k in n.mounted ==> k in n.refs) && (RefsOf(n, k) != {} ==> k in n.mounted)
    case WipeKeyDir(k, _, _) => k !in n.mounted && k !in n.refs
    case FreeKey(k, _, _) => Balanced(n, k)
    case _ => true
  }

  /** While the lock of a key is free, the key is balanced. */
  predicate FreeIsBalanced(n: Node, locks: set<LockName>, k: Key) {
    KeyLock(k) !in locks ==> Balanced(n, k)
  }

  ghost predicate Settled(s: State) {
    && (forall k: Key :: FreeIsBalanced(s.node, s.locks, k))
    && (forall i | i in s.rpcs :: RpcBalanced(s.node, s.rpcs[i]))
  }

  /** After the step its own RPC is in order, and a key it gave back is balanced. */
  predicate StaysBalanced(r: Rpc, o: Outcome) {
    && RpcBalanced(o.node, r.(pc := o.pc))
    && (HeldKey(r).Some? && HeldKey(r.(pc := o.pc)) != HeldKey(r) ==> Balanced(o.node, HeldKey(r).value))
  }

  lemma SharedBalance(n: Node, locks: set<LockName>, r: Rpc, c: Choice)
    requires RpcBalanced(n, r) && c.ok && InSharedPublish(r.pc)
    ensures StaysBalanced(r, SharedStep(n, locks, r, c))
  {
  }

  lemma UnmountBalance(n: Node, locks: set<LockName>, r: Rpc, c: Choice)
    requires RpcBalanced(n, r) && c.ok && r.pc.Unmounting?
    ensures StaysBalanced(r, UnmountStep(n, locks, r, c))
  {
  }

  lemma CleanUpBalance(n: Node, locks: set<LockName>, r: Rpc, c: Choice)
    requires RpcBalanced(n, r) && c.ok && InCleanUp(r.pc)
    requires r.pc.NextKey? && r.pc.todo != [] ==> FreeIsBalanced(n, locks, r.pc.todo[0].key)
    ensures StaysBalanced(r, CleanUpStep(n, locks, r, c))
  {
  }

  lemma StepBalance(n: Node, locks: set<LockName>, r: Rpc, c: Choice)
    requires RpcBalanced(n, r) && c.ok && FreeIsBalanced(n, locks, r.key)
    requires r.pc.NextKey? && r.pc.todo != [] ==> FreeIsBalanced(n, locks, r.pc.todo[0].key)
    ensures StaysBalanced(r, Step(n, locks, r, c))
  {
    if InSharedPublish(r.pc) {
      SharedBalance(n, locks, r, c);
    } else if InCleanUp(r.pc) {
      CleanUpBalance(n, locks, r, c);
    } else if r.pc.Unmounting? {
      UnmountBalance(n, locks, r, c);
    }
  }

  lemma OthersKeepBalance(m: Node, n: Node, r: Rpc)
    requires RpcBalanced(m, r)
    requires HeldKey(r).Some? ==> SameKey(m, n, HeldKey(r).value)
    ensures RpcBalanced(n, r)
  {
  }

  /** A free key stays balanced: the step left it alone, or has just given it back. */
  lemma FreeKeyStaysBalanced(n: Node, locks: set<LockName>, r: Rpc, o: Outcome, k: Key)
    requires LocksMove(locks, r, o) && StaysBalanced(r, o) && FreeIsBalanced(n, locks, k)
    requires HeldKey(r) != Some(k) ==> SameKey(n, o.node, k)
    requires KeyLock(k) !in o.locks
    ensures Balanced(o.node, k)
  {
    if HeldKey(r) == Some(k) {
      assert !o.pc.Done? ==> KeyLock(k) !in Holds(r.(pc := o.pc));
    } else {
      assert KeyLock(k) !in Holds(r);
    }
  }

  lemma MoveKeepsFree(s: State, id: nat, c: Choice, k: Key)
    requires LocksMatch(s) && Settled(s) && id in s.rpcs && c.ok && !s.rpcs[id].pc.Done?
    ensures var o := Step(s.node, s.locks, s.rpcs[id], c);
            StaysBalanced(s.rpcs[id], o) && FreeIsBalanced(o.node, o.locks, k)
  {
    var r := s.rpcs[id];
    var o := Step(s.node, s.locks, r, c);
    assert Image(s.rpcs, Holds)[id] <= s.locks;
    StepLocks(s.node, s.locks, r, c);
    StepBalance(s.node, s.locks, r, c);
    if HeldKey(r) != Some(k) {
      StepKeepsOtherKeys(s.node, s.locks, r, c, k);
    }
    if KeyLock(k) !in o.locks {
      FreeKeyStaysBalanced(s.node, s.locks, r, o, k);
    }
  }

  lemma RpcStaysBalanced(s: State, id: nat, c: Choice, i: nat)
    requires Safe(s) && Settled(s) && id in s.rpcs && c.ok && i in s.rpcs && i != id
    ensures RpcBalanced(Step(s.node, s.locks, s.rpcs[id], c).node, s.rpcs[i])
  {
    if HeldKey(s.rpcs[i]).Some? {
      OtherKeyIsKept(s, id, c, i);
    }
    OthersKeepBalance(s.node, Step(s.node, s.locks, s.rpcs[id], c).node, s.rpcs[i]);
  }

  lemma MoveKeepsSettled(s: State, id: nat, c: Choice)
    requires Safe(s) && Settled(s) && id in s.rpcs && c.ok
    ensures Settled(Apply(s, Move(id, c)))
  {
    var s' := Apply(s, Move(id, c));
    assert RpcOk(s.node, s.rpcs[id]);
    forall k: Key ensures FreeIsBalanced(s'.node, s'.locks, k) {
      MoveKeepsFree(s, id, c, k);
    }
    forall i | i in s'.rpcs ensures RpcBalanced(s'.node, s'.rpcs[i]) {
      if i == id {
        MoveKeepsFree(s, id, c, "");
      } else {
        RpcStaysBalanced(s, id, c, i);
      }
    }
  }

  lemma BeginKeepsSettled(s: State, id: nat, req: Request)
    requires Settled(s)
    ensures Settled(Apply(s, Begin(id, req)))
  {
    var s' := Apply(s, Begin(id, req));
    forall k: Key ensures FreeIsBalanced(s'.node, s'.locks, k) {
      assert FreeIsBalanced(s.node, s.locks, k);
    }
  }

  lemma {:induction false} RunIsSettled(tr: seq<Event>)
    requires forall e | e in tr :: FaultFree(e)
    ensures Settled(Run(tr))
  {
    if tr != [] {
      var s, e := Run(tr[..|tr| - 1]), tr[|tr| - 1];
      RunIsSettled(tr[..|tr| - 1]);
      RunIsSafe(tr[..|tr| - 1]);
      assert FaultFree(e);
      if e.Begin? {
        BeginKeepsSettled(s, e.id, e.req);
      } else if e.id in s.rpcs {
        MoveKeepsSettled(s, e.id, e.choice);
      }
    }
  }

  /** No leak and no early teardown: a key whose lock is free is mounted exactly when it has a reference. */
  lemma FreeKeyIsBalanced(tr: seq<Event>, k: Key)
    requires forall e | e in tr :: FaultFree(e)
    requires KeyLock(k) !in Run(tr).locks
    ensures k in Run(tr).node.mounted <==> RefsOf(Run(tr).node, k) != {}
  {
    RunIsSettled(tr);
    assert FreeIsBalanced(Run(tr).node, Run(tr).locks, k);
  }
}
