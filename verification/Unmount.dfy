/**
 unmountPath (pkg/csi_driver/unmount.go): probe, then a standard, a forced and a lazy umount,
 each tried only after the one before it failed, then the removal of the directory.
 The method below runs the cascade to its end; StepsAgree shows that the single steps of the
 transition system in SharedMounts come to the same result.
 */
module Unmount {
  import opened SharedMounts

  /** How the environment answers one call. effect: a call that reports failure worked all the same. */
  datatype Reply = Reply(ok: bool, effect: bool)

  /** probe: IsLikelyNotMountPoint gave an answer rather than an error. */
  datatype Replies = Replies(probe: bool, standard: Reply, force: Reply, lazy: Reply, remove: Reply)

  /** The cascade gets as far as removing the directory. */
  predicate Detached(wasMounted: bool, a: Replies) {
    (a.probe && !wasMounted) || a.standard.ok || a.force.ok || a.lazy.ok
  }

  predicate Worked(r: Reply) {
    r.ok || r.effect
  }

  /** Every attempt that was made left the mount in place. */
  predicate StillMounted(wasMounted: bool, a: Replies) {
    wasMounted && !Worked(a.standard) && (!Worked(a.force) && !Worked(a.lazy))
  }

  class MountTable {
    var mounted: set<string>
    var dirs: set<string>

    constructor (mounted: set<string>, dirs: set<string>)
      ensures this.mounted == mounted && this.dirs == dirs
    {
      this.mounted := mounted;
      this.dirs := dirs;
    }

    method Umount(target: string, reply: Reply) returns (ok: bool)
      modifies this`mounted
      ensures ok == reply.ok
      ensures mounted == if Worked(reply) then old(mounted) - {target} else old(mounted)
    {
      if Worked(reply) {
        mounted := mounted - {target};
      }
      return reply.ok;
    }

    method RemoveDir(target: string, reply: Reply) returns (ok: bool)
      modifies this`dirs
      ensures ok == reply.ok
      ensures dirs == if Worked(reply) then old(dirs) - {target} else old(dirs)
    {
      if Worked(reply) {
        dirs := dirs - {target};
      }
      return reply.ok;
    }

    /** Succeeds exactly when the path was detached and its directory removed; touches no other path. */
    method UnmountPath(target: string, a: Replies) returns (ok: bool)
      modifies this
      ensures ok <==> Detached(target in old(mounted), a) && a.remove.ok
      ensures ok ==> target !in mounted && target !in dirs
      ensures target in mounted <==> StillMounted(target in old(mounted), a)
      ensures target in dirs <==>
                target in old(dirs) && !(Detached(target in old(mounted), a) && Worked(a.remove))
      ensures mounted - {target} == old(mounted) - {target} && dirs - {target} == old(dirs) - {target}
    {
      if a.probe && target !in mounted {
        ok := RemoveDir(target, a.remove);
        return;
      }
      ok := Umount(target, a.standard);
      if !ok {
        ok := Umount(target, a.force);
      }
      if !ok {
        ok := Umount(target, a.lazy);
      }
      if ok {
        ok := RemoveDir(target, a.remove);
      }
    }
  }

  // ---- the same cascade, step by step ----

  function ChoiceFor(phase: Phase, a: Replies): Choice {
    match phase
    case Probe => Choice(a.probe, false, false, true, [])
    case Standard => Choice(a.standard.ok, a.standard.effect, false, true, [])
    case Force => Choice(a.force.ok, a.force.effect, false, true, [])
    case Lazy => Choice(a.lazy.ok, a.lazy.effect, false, true, [])
    case RemoveDir => Choice(a.remove.ok, a.remove.effect, false, true, [])
  }

  function Rank(pc: Pc): nat {
    if !pc.Unmounting? then 0
    else match pc.phase
      case Probe => 5
      case Standard => 4
      case Force => 3
      case Lazy => 2
      case RemoveDir => 1
  }

  /** Steps of one RPC until it leaves unmountPath. */
  function StepThrough(n: Node, r: Rpc, a: Replies): Outcome
    decreases Rank(r.pc)
  {
    if !r.pc.Unmounting? then Outcome(n, {}, r.pc)
    else
      var o := UnmountStep(n, {}, r, ChoiceFor(r.pc.phase, a));
      StepThrough(o.node, r.(pc := o.pc), a)
  }

  predicate DirThere(n: Node, r: Rpc, caller: Caller) {
    match caller
    case MountFailed => r.key in n.mountDirs
    case Teardown(k, _, _) => k in n.mountDirs
    case _ => false
  }

  /** What the cascade has come to when it is left, seen from a given phase on. */
  predicate EndsAs(n: Node, r: Rpc, caller: Caller, o: Outcome, detached: bool, still: bool, a: Replies) {
    && o.pc == AfterUnmount(caller, detached && a.remove.ok)
    && (PathMounted(o.node, r, caller) <==> still)
    && (DirThere(o.node, r, caller) <==> DirThere(n, r, caller) && !(detached && Worked(a.remove)))
  }

  lemma FromRemoveDir(n: Node, r: Rpc, a: Replies)
    requires r.pc.Unmounting? && r.pc.phase.RemoveDir?
    ensures EndsAs(n, r, r.pc.caller, StepThrough(n, r, a), true, PathMounted(n, r, r.pc.caller), a)
  {
  }

  lemma FromLazy(n: Node, r: Rpc, a: Replies)
    requires r.pc.Unmounting? && r.pc.phase.Lazy?
    ensures EndsAs(n, r, r.pc.caller, StepThrough(n, r, a), a.lazy.ok,
                   PathMounted(n, r, r.pc.caller) && !Worked(a.lazy), a)
  {
    var o := UnmountStep(n, {}, r, ChoiceFor(Lazy, a));
    if a.lazy.ok {
      FromRemoveDir(o.node, r.(pc := o.pc), a);
    }
  }

  lemma FromForce(n: Node, r: Rpc, a: Replies)
    requires r.pc.Unmounting? && r.pc.phase.Force?
    ensures EndsAs(n, r, r.pc.caller, StepThrough(n, r, a), a.force.ok || a.lazy.ok,
                   PathMounted(n, r, r.pc.caller) && !Worked(a.force) && !Worked(a.lazy), a)
  {
    var o := UnmountStep(n, {}, r, ChoiceFor(Force, a));
    if a.force.ok {
      FromRemoveDir(o.node, r.(pc := o.pc), a);
    } else {
      FromLazy(o.node, r.(pc := o.pc), a);
    }
  }

  lemma FromStandard(n: Node, r: Rpc, a: Replies)
    requires r.pc.Unmounting? && r.pc.phase.Standard?
    ensures EndsAs(n, r, r.pc.caller, StepThrough(n, r, a), a.standard.ok || a.force.ok || a.lazy.ok,
                   StillMounted(PathMounted(n, r, r.pc.caller), a), a)
  {
    var o := UnmountStep(n, {}, r, ChoiceFor(Standard, a));
    if a.standard.ok {
      FromRemoveDir(o.node, r.(pc := o.pc), a);
    } else {
      FromForce(o.node, r.(pc := o.pc), a);
    }
  }

  /** The steps come to what MountTable.UnmountPath does: same success, same mount, same directory. */
  lemma StepsAgree(n: Node, r: Rpc, a: Replies)
    requires r.pc.Unmounting? && r.pc.phase.Probe?
    ensures var was := PathMounted(n, r, r.pc.caller);
            EndsAs(n, r, r.pc.caller, StepThrough(n, r, a), Detached(was, a), StillMounted(was, a), a)
  {
    var o := UnmountStep(n, {}, r, ChoiceFor(Probe, a));
    if o.pc.phase.RemoveDir? {
      FromRemoveDir(o.node, r.(pc := o.pc), a);
    } else {
      FromStandard(o.node, r.(pc := o.pc), a);
    }
  }
}
