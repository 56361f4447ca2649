/**
 What NodePublishVolume achieves when it runs alone, beside the publish of an IAM volume on a free target, which is
 in SharedMountTenancy: a plain volume, a target that is bound already, and the clean-up after each call that can
 leave something behind. Each net effect is stated without the steps.
 */
module SharedMountPublish {
  import opened Options
  import opened SharedMounts
  import opened SharedMountTenancy
  import opened SharedMountUnpublish

  predicate AddedEvent(e: Event, req: Request, fault: Choice) {
    e == Begin(0, req) || e == Move(0, WORKS) || e == Move(0, fault)
  }

  /** Only these events were added. */
  predicate Adds(tr: seq<Event>, tr': seq<Event>, req: Request, fault: Choice) {
    tr <= tr' && forall i | |tr| <= i < |tr'| :: AddedEvent(tr'[i], req, fault)
  }

  lemma AddsOn(tr: seq<Event>, tr': seq<Event>, tr'': seq<Event>, req: Request, fault: Choice)
    requires Adds(tr, tr', req, fault) && GoesOn(tr', tr'')
    ensures Adds(tr, tr'', req, fault)
  {
    forall i | |tr| <= i < |tr''| ensures AddedEvent(tr''[i], req, fault) {
      if i < |tr'| {
        assert tr''[i] == tr'[i];
      }
    }
  }

  // ---- a plain volume ----

  lemma PlainUpToProbe(tr: seq<Event>, t: Target, p: Pod, k: Key) returns (tr': seq<Event>, o: Outcome)
    requires Idle(tr)
    ensures Run(tr') == Lone(o, Rpc(t, p, k, false, MakeTargetDir)) && Adds(tr, tr', Publish(t, p, k, false), WORKS)
    ensures o == Outcome(Run(tr).node, {TargetLock(t)}, ProbeTarget)
  {
    tr', o := Start(tr, Publish(t, p, k, false));
    tr', o := PublishOn(tr', Rpc(t, p, k, false, MakeTargetDir), o, WORKS);
  }

  lemma PlainUpToOwnership(tr: seq<Event>, t: Target, p: Pod, k: Key) returns (tr': seq<Event>, o: Outcome)
    requires Idle(tr)
    ensures Run(tr') == Lone(o, Rpc(t, p, k, false, MakeTargetDir)) && Adds(tr, tr', Publish(t, p, k, false), WORKS)
    ensures var n := Run(tr).node;
            o == Outcome(if t in n.bound then n else n.(bound := n.bound[t := Staged]), {TargetLock(t)}, SetOwnership)
  {
    var r := Rpc(t, p, k, false, MakeTargetDir);
    tr', o := PlainUpToProbe(tr, t, p, k);
    tr', o := PublishOn(tr', r, o, WORKS);
    if o.pc.BindStaged? {
      tr', o := PublishOn(tr', r, o, WORKS);
    }
  }

  /** The target is bound to its staging path if it was not bound, and nothing else changes. */
  lemma PlainPublishAlone(tr: seq<Event>, t: Target, p: Pod, k: Key) returns (tr': seq<Event>)
    requires Idle(tr)
    ensures Idle(tr') && Adds(tr, tr', Publish(t, p, k, false), WORKS) && Answers(tr', Published)
    ensures var n := Run(tr).node;
            Run(tr').node == if t in n.bound then n else n.(bound := n.bound[t := Staged])
  {
    var r, o := Rpc(t, p, k, false, MakeTargetDir), Outcome(INITIAL.node, {}, Done);
    tr', o := PlainUpToOwnership(tr, t, p, k);
    tr', o := PublishOn(tr', r, o, WORKS);
    tr' := Finish(tr', r, o);
  }

  /** A plain publish and the unpublish of its path, with no pod in it, give back the node. */
  lemma PlainRoundTrip(tr: seq<Event>, t: Target, p: Pod, k: Key) returns (tr': seq<Event>)
    requires Idle(tr) && t !in Run(tr).node.bound
    ensures Idle(tr') && tr <= tr' && Run(tr').node == Run(tr).node
  {
    var n := Run(tr).node;
    tr' := PlainPublishAlone(tr, t, p, k);
    assert n.bound[t := Staged] - {t} == n.bound;
    tr' := UnpublishNobody(tr', t);
  }

  // ---- an IAM volume whose target is bound already ----

  lemma RepublishUpToKey(tr: seq<Event>, r: Rpc) returns (tr': seq<Event>, o: Outcome)
    requires Idle(tr) && r.target in Run(tr).node.bound && r.iam && r.pc.MakeTargetDir?
    ensures Run(tr') == Lone(o, r) && Publishes(tr, tr', r)
    ensures o == Outcome(Run(tr).node, {TargetLock(r.target), KeyLock(r.key)}, MakeMountDir(true))
  {
    tr', o := Start(tr, Publish(r.target, r.pod, r.key, true));
    tr', o := PublishOn(tr', r, o, WORKS);
    tr', o := PublishOn(tr', r, o, WORKS);
    tr', o := PublishOn(tr', r, o, WORKS);
  }

  lemma RepublishUpToProbe(tr: seq<Event>, r: Rpc) returns (tr': seq<Event>, o: Outcome)
    requires Idle(tr) && r.target in Run(tr).node.bound && r.iam && r.pc.MakeTargetDir?
    ensures Run(tr') == Lone(o, r) && Publishes(tr, tr', r)
    ensures var n := Run(tr).node;
            o == Outcome(Prepared(n, r.key), {TargetLock(r.target), KeyLock(r.key)}, ProbeGlobal(true))
  {
    tr', o := RepublishUpToKey(tr, r);
    tr', o := SharedOn(tr', r, o, WORKS);
    tr', o := SharedOn(tr', r, o, WORKS);
    tr', o := SharedOn(tr', r, o, WORKS);
  }

  lemma RepublishUpToRef(tr: seq<Event>, r: Rpc) returns (tr': seq<Event>, o: Outcome)
    requires Idle(tr) && r.target in Run(tr).node.bound && r.iam && r.pc.MakeTargetDir?
    ensures Run(tr') == Lone(o, r) && Publishes(tr, tr', r)
    ensures var n := Run(tr).node;
            o == Outcome(Prepared(n, r.key).(mounted := n.mounted + {r.key}),
                         {TargetLock(r.target), KeyLock(r.key)}, AddRef(true))
  {
    tr', o := RepublishUpToProbe(tr, r);
    tr', o := SharedOn(tr', r, o, WORKS);
    if o.pc.MountGlobal? {
      tr', o := SharedOn(tr', r, o, WORKS);
    } else {
      assert Run(tr).node.mounted + {r.key} == Run(tr).node.mounted;
    }
  }

  lemma RepublishUpToRelease(tr: seq<Event>, r: Rpc) returns (tr': seq<Event>, o: Outcome)
    requires Idle(tr) && r.target in Run(tr).node.bound && r.iam && r.pc.MakeTargetDir?
    ensures Run(tr') == Lone(o, r) && Publishes(tr, tr', r)
    ensures o == Outcome(Referenced(Run(tr).node, r.key, r.pod), {TargetLock(r.target), KeyLock(r.key)},
                         ReleaseKey(true))
  {
    var n := Run(tr).node;
    tr', o := RepublishUpToRef(tr, r);
    assert o.node.refs[r.key := RefsOf(n, r.key) + {r.pod}] == n.refs[r.key := RefsOf(n, r.key) + {r.pod}];
    tr', o := SharedOn(tr', r, o, WORKS);
  }

  lemma RepublishUpToOwnership(tr: seq<Event>, r: Rpc) returns (tr': seq<Event>, o: Outcome)
    requires Idle(tr) && r.target in Run(tr).node.bound && r.iam && r.pc.MakeTargetDir?
    ensures Run(tr') == Lone(o, r) && Publishes(tr, tr', r)
    ensures o == Outcome(Referenced(Run(tr).node, r.key, r.pod), {TargetLock(r.target)}, SetOwnership)
  {
    tr', o := RepublishUpToRelease(tr, r);
    tr', o := SharedOn(tr', r, o, WORKS);
  }

  /** The token is refreshed and the reference written again; the target stays bound as it was. */
  lemma RepublishAlone(tr: seq<Event>, r: Rpc) returns (tr': seq<Event>)
    requires Idle(tr) && r.target in Run(tr).node.bound && r.iam && r.pc.MakeTargetDir?
    ensures Idle(tr') && Publishes(tr, tr', r) && Answers(tr', Published)
    ensures Run(tr').node == Referenced(Run(tr).node, r.key, r.pod)
  {
    var o := Outcome(INITIAL.node, {}, Done);
    tr', o := RepublishUpToOwnership(tr, r);
    tr', o := PublishOn(tr', r, o, WORKS);
    tr' := Finish(tr', r, o);
  }

  // ---- the clean-up after a failed call ----

  /** The call reports failure and has taken effect. */
  const HALF_FAILS := Choice(false, true, true, true, [])

  /** One publish of an IAM volume was added in which one call failed, with its effect. */
  predicate AddsFailing(tr: seq<Event>, tr': seq<Event>, r: Rpc) {
    Adds(tr, tr', Publish(r.target, r.pod, r.key, true), HALF_FAILS)
  }

  lemma ReleaseBoth(tr: seq<Event>, r: Rpc, o: Outcome) returns (tr': seq<Event>)
    requires Run(tr) == Lone(o, r) && o.pc == ReleaseKey(false) && o.locks == {TargetLock(r.target), KeyLock(r.key)}
    ensures Run(tr') == State({}, o.node, map[]) && GoesOn(tr, tr') && Answers(tr', Failed)
  {
    var o' := o;
    tr', o' := SharedOn(tr, r, o, WORKS);
    tr' := Finish(tr', r, o');
  }

  lemma FailMount(tr: seq<Event>, r: Rpc) returns (tr': seq<Event>, o: Outcome)
    requires Fresh(tr, r) && r.key !in Run(tr).node.mounted
    ensures Run(tr') == Lone(o, r) && AddsFailing(tr, tr', r)
    ensures var n := Run(tr).node;
            o == Outcome(Prepared(n, r.key).(mounted := n.mounted + {r.key}),
                         {TargetLock(r.target), KeyLock(r.key)}, Unmounting(Probe, MountFailed))
  {
    tr', o := PublishUpToProbe(tr, r);
    tr', o := SharedOn(tr', r, o, WORKS);
    tr', o := SharedOn(tr', r, o, HALF_FAILS);
  }

  /** A mount that fails half-way is undone: the key is not mounted, and its mount directory is gone. */
  lemma FailedMountAlone(tr: seq<Event>, r: Rpc) returns (tr': seq<Event>)
    requires Fresh(tr, r) && r.key !in Run(tr).node.mounted
    ensures Idle(tr') && AddsFailing(tr, tr', r) && Answers(tr', Failed)
    ensures var n := Run(tr).node;
            Run(tr').node == Prepared(n, r.key).(mountDirs := n.mountDirs - {r.key})
  {
    var n := Run(tr).node;
    var failed, o := FailMount(tr, r);
    tr', o := UndoMount(failed, r, o);
    assert n.mounted + {r.key} - {r.key} == n.mounted;
    assert n.mountDirs + {r.key} - {r.key} == n.mountDirs - {r.key};
    tr' := ReleaseBoth(tr', r, o);
    AddsOn(tr, failed, tr', Publish(r.target, r.pod, r.key, true), HALF_FAILS);
  }

  lemma UndoMountAtAll(tr: seq<Event>, r: Rpc, o: Outcome) returns (tr': seq<Event>, o': Outcome)
    requires Run(tr) == Lone(o, r) && o.pc == Unmounting(Probe, MountFailed) && r.key in o.node.mounted
    ensures At(tr', r, o', o.node.(mounted := o.node.mounted - {r.key}), Unmounting(RemoveDir, MountFailed))
    ensures GoesOn(tr, tr') && o'.locks == o.locks
  {
    tr', o' := UnmountOn(tr, r, o, WORKS);
    tr', o' := UnmountOn(tr', r, o', WORKS);
  }

  lemma UndoMount(tr: seq<Event>, r: Rpc, o: Outcome) returns (tr': seq<Event>, o': Outcome)
    requires Run(tr) == Lone(o, r) && o.pc == Unmounting(Probe, MountFailed) && r.key in o.node.mounted
    ensures Run(tr') == Lone(o', r) && GoesOn(tr, tr') && o'.pc == ReleaseKey(false) && o'.locks == o.locks
    ensures o'.node == o.node.(mounted := o.node.mounted - {r.key}, mountDirs := o.node.mountDirs - {r.key})
  {
    tr', o' := UndoMountAtAll(tr, r, o);
    tr', o' := UnmountOn(tr', r, o', WORKS);
  }

  lemma DropReferenced(n: Node, k: Key, p: Pod)
    ensures WithoutRef(Referenced(n, k, p), k, p) ==
              n.(refs := n.refs[k := RefsOf(n, k) - {p}], mountDirs := n.mountDirs + {k}, tokens := n.tokens + {k},
                 mounted := n.mounted + {k})
  {
    assert RefsOf(n, k) + {p} - {p} == RefsOf(n, k) - {p};
  }

  lemma FailBind(tr: seq<Event>, r: Rpc) returns (tr': seq<Event>, o: Outcome)
    requires Fresh(tr, r)
    ensures Run(tr') == Lone(o, r) && AddsFailing(tr, tr', r)
    ensures o.pc == Unmounting(Probe, BindFailed) && o.locks == {TargetLock(r.target), KeyLock(r.key)}
    ensures var n := Run(tr).node;
            o.node == WithoutRef(Referenced(n, r.key, r.pod), r.key, r.pod)
                        .(bound := n.bound[r.target := Shared(r.key)])
  {
    tr', o := PublishUpToBind(tr, r);
    tr', o := DropRef(tr', r, o);
  }

  /** A bind that fails half-way is undone: the target is not bound and the reference is gone. The mount stays. */
  lemma FailedBindAlone(tr: seq<Event>, r: Rpc) returns (tr': seq<Event>)
    requires Fresh(tr, r)
    ensures Idle(tr') && AddsFailing(tr, tr', r) && Answers(tr', Failed)
    ensures var n := Run(tr).node;
            Run(tr').node == n.(refs := n.refs[r.key := RefsOf(n, r.key) - {r.pod}],
                                mountDirs := n.mountDirs + {r.key}, tokens := n.tokens + {r.key},
                                mounted := n.mounted + {r.key})
  {
    var n := Run(tr).node;
    var failed, o := FailBind(tr, r);
    DropReferenced(n, r.key, r.pod);
    assert n.bound[r.target := Shared(r.key)] - {r.target} == n.bound;
    tr', o := UnmountTarget(failed, r, o);
    tr' := ReleaseBoth(tr', r, o);
    AddsOn(tr, failed, tr', Publish(r.target, r.pod, r.key, true), HALF_FAILS);
  }

  lemma DropRef(tr: seq<Event>, r: Rpc, o: Outcome) returns (tr': seq<Event>, o': Outcome)
    requires Run(tr) == Lone(o, r) && o.pc.Bind?
    ensures Run(tr') == Lone(o', r) && o'.pc == Unmounting(Probe, BindFailed) && o'.locks == o.locks
    ensures o'.node == WithoutRef(o.node, r.key, r.pod).(bound := o.node.bound[r.target := Shared(r.key)])
    ensures tr' == tr + [Move(0, HALF_FAILS), Move(0, WORKS)]
  {
    tr', o' := SharedOn(tr, r, o, HALF_FAILS);
    tr', o' := SharedOn(tr', r, o', WORKS);
  }

  lemma FailOwnership(tr: seq<Event>, r: Rpc) returns (tr': seq<Event>, o: Outcome)
    requires Fresh(tr, r)
    ensures Run(tr') == Lone(o, r) && AddsFailing(tr, tr', r)
    ensures var n := Referenced(Run(tr).node, r.key, r.pod);
            o == Outcome(n.(bound := n.bound[r.target := Shared(r.key)]), {TargetLock(r.target)},
                         Unmounting(Probe, OwnershipFailed))
  {
    tr', o := PublishUpToOwnership(tr, r);
    tr', o := PublishOn(tr', r, o, HALF_FAILS);
  }

  /** When the ownership of a bound target cannot be set the target is unbound again; the reference stays. */
  lemma FailedOwnershipAlone(tr: seq<Event>, r: Rpc) returns (tr': seq<Event>)
    requires Fresh(tr, r)
    ensures Idle(tr') && AddsFailing(tr, tr', r) && Answers(tr', Failed)
    ensures Run(tr').node == Referenced(Run(tr).node, r.key, r.pod)
  {
    var n := Run(tr).node;
    var failed, o := FailOwnership(tr, r);
    assert n.bound[r.target := Shared(r.key)] - {r.target} == n.bound;
    tr', o := UnmountTarget(failed, r, o);
    tr' := Finish(tr', r, o);
    AddsOn(tr, failed, tr', Publish(r.target, r.pod, r.key, true), HALF_FAILS);
  }
}
