/**
 The node service's reference-counted shared mounts, as a transition system whose
 steps are the single lock operations and single operating-system calls of
 NodePublishVolume, NodeUnpublishVolume, NodeStageVolume and NodeUnstageVolume
 (pkg/csi_driver/node.go, pkg/csi_driver/unmount.go).

 Any number of RPCs are in flight. One event is one step of one RPC, so a trace is
 an interleaving. Every step takes a Choice: the environment decides whether the
 call succeeds, and whether a call that reports failure took effect all the same.
 */
module SharedMounts {
  import opened Options
  import opened GlobPatterns

  type Key = string
  type Pod = string
  type Target = string

  /** Names in the one VolumeLocks set. A key is a hex digest and a target is a path, so they never coincide. */
  datatype LockName = TargetLock(target: Target) | KeyLock(key: Key)

  /** What a target is bind-mounted from: its staging path, or the shared mount of a key. */
  datatype Source = Staged | Shared(key: Key)

  /**
   The file system as the driver sees it.
   refs[k] is the content of <root>/<k>/refs, and k !in refs means that directory does not exist.
   tokens are the keys whose token file is there.
   damaged records every key whose directory was removed recursively while it was still in use.
   */
  datatype Node = Node(
    refs: map<Key, set<Pod>>,
    mountDirs: set<Key>,
    tokens: set<Key>,
    mounted: set<Key>,
    bound: map<Target, Source>,
    damaged: set<Key>)

  /** A marker file, <root>/<key>/refs/<pod>. */
  datatype Ref = Ref(key: Key, pod: Pod)

  datatype Request =
    | Publish(target: Target, pod: Pod, key: Key, iam: bool)
    | Unpublish(target: Target, owner: Option<Pod>)
    | Stage(target: Target)

  /** The steps of unmountPath. */
  datatype Phase = Probe | Standard | Force | Lazy | RemoveDir

  /** Where unmountPath was called from. */
  datatype Caller =
    | MountFailed
    | BindFailed
    | OwnershipFailed
    | Unpublishing(podKnown: bool)
    | Teardown(key: Key, todo: seq<Ref>, clean: bool)

  /** What the RPC answers. */
  datatype Reply = Published | Unpublished | StageDone | Failed

  datatype Pc =
    // NodePublishVolume, holding the target lock
    | MakeTargetDir
    | ProbeTarget
    | BindStaged
    | AcquireKey(targetMounted: bool)
    | SetOwnership
    // publishIAMVolume, holding the key lock as well
    | MakeMountDir(targetMounted: bool)
    | MakeRefsDir(targetMounted: bool)
    | WriteToken(targetMounted: bool)
    | ProbeGlobal(targetMounted: bool)
    | MountGlobal(targetMounted: bool)
    | AddRef(targetMounted: bool)
    | Bind
    | DropOwnRef
    | ReleaseKey(published: bool)
    // unmountPath
    | Unmounting(phase: Phase, caller: Caller)
    // cleanUpIAMReference and cleanUpIAMReferenceForKey; clean: no error so far
    | Glob
    | NextKey(todo: seq<Ref>, clean: bool)
    | RemoveRef(cleaning: Key, marker: Pod, todo: seq<Ref>, clean: bool)
    | RemoveRefsDir(cleaning: Key, todo: seq<Ref>, clean: bool)
    | WipeKeyDir(cleaning: Key, todo: seq<Ref>, clean: bool)
    | FreeKey(cleaning: Key, todo: seq<Ref>, clean: bool)
    // NodeStageVolume and NodeUnstageVolume: work outside the shared mounts
    | Staging
    | ReleaseTarget(reply: Reply)
    | Done

  datatype Rpc = Rpc(target: Target, pod: Pod, key: Key, iam: bool, pc: Pc)

  datatype State = State(locks: set<LockName>, node: Node, rpcs: map<nat, Rpc>)

  /**
   ok: the operating-system call of this step reports success.
   effect: a call that reports failure changed the file system all the same.
   halfBound: the same for the bind mount of a target.
   accept: the request data used by this step is valid (token, endpoint, fsGroup, NIC set-up).
   matches: what the glob finds.
   */
  datatype Choice = Choice(ok: bool, effect: bool, halfBound: bool, accept: bool, matches: seq<Ref>)

  datatype Event = Begin(id: nat, req: Request) | Move(id: nat, choice: Choice)

  datatype Outcome = Outcome(node: Node, locks: set<LockName>, pc: Pc)

  const INITIAL := State({}, Node(map[], {}, {}, {}, map[], {}), map[])

  function RefsOf(n: Node, k: Key): set<Pod> {
    if k in n.refs then n.refs[k] else {}
  }

  // ---- file-system effects ----

  function WithRefsDir(n: Node, k: Key): Node {
    if k in n.refs then n else n.(refs := n.refs[k := {}])
  }

  /** Writing a marker file fails when the refs directory is missing. */
  function WithRef(n: Node, k: Key, p: Pod): Node {
    if k in n.refs then n.(refs := n.refs[k := n.refs[k] + {p}]) else n
  }

  function WithoutRef(n: Node, k: Key, p: Pod): Node {
    if k in n.refs then n.(refs := n.refs[k := n.refs[k] - {p}]) else n
  }

  function WithoutRefsDir(n: Node, k: Key): Node {
    n.(refs := n.refs - {k})
  }

  predicate InUse(n: Node, k: Key) {
    k in n.mounted || k in n.mountDirs || k in n.refs
  }

  /** os.RemoveAll on the directory of a key. */
  function Wiped(n: Node, k: Key): Node {
    n.(refs := n.refs - {k}, mountDirs := n.mountDirs - {k}, tokens := n.tokens - {k},
       damaged := if InUse(n, k) then n.damaged + {k} else n.damaged)
  }

  // ---- NodePublishVolume ----

  predicate InPublish(pc: Pc) {
    pc.MakeTargetDir? || pc.ProbeTarget? || pc.BindStaged? || pc.AcquireKey? || pc.SetOwnership?
  }

  function PublishStep(n: Node, locks: set<LockName>, r: Rpc, c: Choice): Outcome
    requires InPublish(r.pc)
  {
    match r.pc
    case MakeTargetDir => Outcome(n, locks, if c.ok then ProbeTarget else ReleaseTarget(Failed))
    case ProbeTarget =>
      if !c.ok || (r.iam && !c.accept) then Outcome(n, locks, ReleaseTarget(Failed))
      else if r.iam then Outcome(n, locks, AcquireKey(r.target in n.bound))
      else Outcome(n, locks, if r.target in n.bound then SetOwnership else BindStaged)
    case BindStaged =>
      Outcome(if c.ok || c.effect then n.(bound := n.bound[r.target := Staged]) else n, locks,
              if c.ok then SetOwnership else ReleaseTarget(Failed))
    case AcquireKey(targetMounted) =>
      if KeyLock(r.key) in locks then Outcome(n, locks, ReleaseTarget(Failed))
      else Outcome(n, locks + {KeyLock(r.key)}, MakeMountDir(targetMounted))
    case SetOwnership =>
      Outcome(n, locks, if c.ok && c.accept then ReleaseTarget(Published) else Unmounting(Probe, OwnershipFailed))
  }

  // ---- publishIAMVolume and mountGlobalIAM ----

  predicate InSharedPublish(pc: Pc) {
    pc.MakeMountDir? || pc.MakeRefsDir? || pc.WriteToken? || pc.ProbeGlobal? || pc.MountGlobal? || pc.AddRef?
    || pc.Bind? || pc.DropOwnRef? || pc.ReleaseKey?
  }

  function SharedStep(n: Node, locks: set<LockName>, r: Rpc, c: Choice): Outcome
    requires InSharedPublish(r.pc)
  {
    match r.pc
    case MakeMountDir(targetMounted) =>
      Outcome(if c.ok || c.effect then n.(mountDirs := n.mountDirs + {r.key}) else n, locks,
              if c.ok then MakeRefsDir(targetMounted) else ReleaseKey(false))
    case MakeRefsDir(targetMounted) =>
      Outcome(if c.ok || c.effect then WithRefsDir(n, r.key) else n, locks,
              if c.ok then WriteToken(targetMounted) else ReleaseKey(false))
    case WriteToken(targetMounted) =>
      Outcome(if c.accept && (c.ok || c.effect) then n.(tokens := n.tokens + {r.key}) else n, locks,
              if c.accept && c.ok then ProbeGlobal(targetMounted) else ReleaseKey(false))
    case ProbeGlobal(targetMounted) =>
      Outcome(n, locks,
              if !c.ok then ReleaseKey(false)
              else if r.key in n.mounted then AddRef(targetMounted) else MountGlobal(targetMounted))
    case MountGlobal(targetMounted) =>
      if !c.accept then Outcome(n, locks, ReleaseKey(false))
      else Outcome(if c.ok || c.effect then n.(mounted := n.mounted + {r.key}) else n, locks,
                   if c.ok then AddRef(targetMounted) else Unmounting(Probe, MountFailed))
    case AddRef(targetMounted) =>
      var written := c.ok && r.key in n.refs;
      Outcome(if written || c.effect then WithRef(n, r.key, r.pod) else n, locks,
              if !written then ReleaseKey(false) else if targetMounted then ReleaseKey(true) else Bind)
    case Bind =>
      Outcome(if c.ok || c.halfBound then n.(bound := n.bound[r.target := Shared(r.key)]) else n, locks,
              if c.ok then ReleaseKey(true) else DropOwnRef)
    case DropOwnRef =>
      Outcome(if c.ok || c.effect then WithoutRef(n, r.key, r.pod) else n, locks, Unmounting(Probe, BindFailed))
    case ReleaseKey(published) =>
      Outcome(n, locks - {KeyLock(r.key)}, if published then SetOwnership else ReleaseTarget(Failed))
  }

  // ---- unmountPath ----

  predicate PathMounted(n: Node, r: Rpc, caller: Caller) {
    match caller
    case MountFailed => r.key in n.mounted
    case Teardown(k, _, _) => k in n.mounted
    case _ => r.target in n.bound
  }

  function PathUnmounted(n: Node, r: Rpc, caller: Caller): Node {
    match caller
    case MountFailed => n.(mounted := n.mounted - {r.key})
    case Teardown(k, _, _) => n.(mounted := n.mounted - {k})
    case _ => n.(bound := n.bound - {r.target})
  }

  function PathRemoved(n: Node, r: Rpc, caller: Caller): Node {
    match caller
    case MountFailed => n.(mountDirs := n.mountDirs - {r.key})
    case Teardown(k, _, _) => n.(mountDirs := n.mountDirs - {k})
    case _ => n
  }

  function AfterUnmount(caller: Caller, success: bool): Pc {
    match caller
    case MountFailed => ReleaseKey(false)
    case BindFailed => ReleaseKey(false)
    case OwnershipFailed => ReleaseTarget(Failed)
    case Unpublishing(podKnown) =>
      if !success then ReleaseTarget(Failed) else if podKnown then Glob else ReleaseTarget(Unpublished)
    case Teardown(k, todo, clean) => if success then WipeKeyDir(k, todo, clean) else FreeKey(k, todo, false)
  }

  /** The probe is truthful when it answers, and umount reports success only when the path is not mounted. */
  function UnmountStep(n: Node, locks: set<LockName>, r: Rpc, c: Choice): Outcome
    requires r.pc.Unmounting?
  {
    var caller := r.pc.caller;
    var umounted := if c.ok || c.effect then PathUnmounted(n, r, caller) else n;
    match r.pc.phase
    case Probe =>
      Outcome(n, locks, Unmounting(if c.ok && !PathMounted(n, r, caller) then RemoveDir else Standard, caller))
    case Standard => Outcome(umounted, locks, Unmounting(if c.ok then RemoveDir else Force, caller))
    case Force => Outcome(umounted, locks, Unmounting(if c.ok then RemoveDir else Lazy, caller))
    case Lazy => Outcome(umounted, locks, if c.ok then Unmounting(RemoveDir, caller) else AfterUnmount(caller, false))
    case RemoveDir =>
      Outcome(if c.ok || c.effect then PathRemoved(n, r, caller) else n, locks, AfterUnmount(caller, c.ok))
  }

  // ---- NodeUnpublishVolume ----

  predicate InCleanUp(pc: Pc) {
    pc.Glob? || pc.NextKey? || pc.RemoveRef? || pc.RemoveRefsDir? || pc.WipeKeyDir? || pc.FreeKey?
  }

  /** The markers whose name fits the pattern made of a pod UID. */
  function Fitting(pattern: Pod, refs: seq<Ref>): (r: seq<Ref>)
    ensures forall x | x in r :: x in refs && Match(pattern, x.pod)
    ensures (forall x | x in refs :: Match(pattern, x.pod)) ==> r == refs
  {
    if refs == [] then []
    else (if Match(pattern, refs[0].pod) then [refs[0]] else []) + Fitting(pattern, refs[1..])
  }

  /** The glob takes no lock and hides read errors, so it may return any list of markers that fit the pattern. */
  function CleanUpStep(n: Node, locks: set<LockName>, r: Rpc, c: Choice): Outcome
    requires InCleanUp(r.pc)
  {
    match r.pc
    case Glob =>
      if !WellFormed(r.pod) then Outcome(n, locks, ReleaseTarget(Failed))
      else Outcome(n, locks, NextKey(Fitting(r.pod, c.matches), true))
    case NextKey(todo, clean) =>
      if todo == [] then Outcome(n, locks, ReleaseTarget(if clean then Unpublished else Failed))
      else if KeyLock(todo[0].key) in locks then Outcome(n, locks, NextKey(todo[1..], false))
      else Outcome(n, locks + {KeyLock(todo[0].key)}, RemoveRef(todo[0].key, todo[0].pod, todo[1..], clean))
    case RemoveRef(k, marker, todo, clean) =>
      Outcome(if c.ok || c.effect then WithoutRef(n, k, marker) else n, locks,
              if c.ok then RemoveRefsDir(k, todo, clean) else FreeKey(k, todo, false))
    case RemoveRefsDir(k, todo, clean) =>
      if k !in n.refs || n.refs[k] != {} then Outcome(n, locks, FreeKey(k, todo, clean))
      else Outcome(if c.ok || c.effect then WithoutRefsDir(n, k) else n, locks,
                   if c.ok then Unmounting(Probe, Teardown(k, todo, clean)) else FreeKey(k, todo, false))
    case WipeKeyDir(k, todo, clean) =>
      Outcome(if c.ok || c.effect then Wiped(n, k) else n, locks, FreeKey(k, todo, clean && c.ok))
    case FreeKey(k, todo, clean) => Outcome(n, locks - {KeyLock(k)}, NextKey(todo, clean))
  }

  function Step(n: Node, locks: set<LockName>, r: Rpc, c: Choice): Outcome {
    if InPublish(r.pc) then PublishStep(n, locks, r, c)
    else if InSharedPublish(r.pc) then SharedStep(n, locks, r, c)
    else if InCleanUp(r.pc) then CleanUpStep(n, locks, r, c)
    else if r.pc.Unmounting? then UnmountStep(n, locks, r, c)
    else if r.pc.Staging? then
      Outcome(n, locks, if c.accept then Staging else ReleaseTarget(if c.ok then StageDone else Failed))
    else if r.pc.ReleaseTarget? then Outcome(n, locks - {TargetLock(r.target)}, Done)
    else Outcome(n, locks, Done)
  }

  function Started(req: Request): Rpc {
    match req
    case Publish(target, pod, key, iam) => Rpc(target, pod, key, iam, MakeTargetDir)
    case Unpublish(target, Some(pod)) => Rpc(target, pod, "", false, Unmounting(Probe, Unpublishing(true)))
    case Unpublish(target, None) => Rpc(target, "", "", false, Unmounting(Probe, Unpublishing(false)))
    case Stage(target) => Rpc(target, "", "", false, Staging)
  }

  /** The state after a step of one RPC. */
  function After(s: State, id: nat, o: Outcome): State
    requires id in s.rpcs
  {
    State(o.locks, o.node, if o.pc.Done? then s.rpcs - {id} else s.rpcs[id := s.rpcs[id].(pc := o.pc)])
  }

  /** Every handler first tries the lock of its target path, and gives up at once when it is taken. */
  function Apply(s: State, e: Event): State {
    match e
    case Begin(id, req) =>
      if id in s.rpcs || TargetLock(req.target) in s.locks then s
      else State(s.locks + {TargetLock(req.target)}, s.node, s.rpcs[id := Started(req)])
    case Move(id, c) =>
      if id !in s.rpcs then s else After(s, id, Step(s.node, s.locks, s.rpcs[id], c))
  }

  function Run(tr: seq<Event>): State {
    if tr == [] then INITIAL else Apply(Run(tr[..|tr| - 1]), tr[|tr| - 1])
  }

  // ---- what an RPC holds ----

  function HeldKey(r: Rpc): Option<Key> {
    if InSharedPublish(r.pc) then Some(r.key)
    else
      match r.pc
      case Unmounting(_, MountFailed) => Some(r.key)
      case Unmounting(_, BindFailed) => Some(r.key)
      case Unmounting(_, Teardown(k, _, _)) => Some(k)
      case RemoveRef(k, _, _, _) => Some(k)
      case RemoveRefsDir(k, _, _) => Some(k)
      case WipeKeyDir(k, _, _) => Some(k)
      case FreeKey(k, _, _) => Some(k)
      case _ => None
  }

  function Holds(r: Rpc): set<LockName> {
    {TargetLock(r.target)} + (if HeldKey(r).Some? then {KeyLock(HeldKey(r).value)} else {})
  }
}
