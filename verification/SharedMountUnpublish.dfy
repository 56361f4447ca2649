/**
 What NodeUnpublishVolume achieves when it runs alone and no call fails: the target is unbound,
 the pod's references are gone under every key the glob found, and exactly those shared mounts
 whose last reference it was are torn down, directories included. The steps are those of the
 transition system; the net effect is stated without them.
 */
module SharedMountUnpublish {
  import opened Options
  import opened GlobPatterns
  import opened SharedMounts
  import opened SharedMountSafety
  import opened SharedMountBalance
  import opened SharedMountTenancy

  /** Drop one reference; with the last one the key leaves no trace. */
  function Cleaned(n: Node, k: Key, p: Pod): Node {
    if RefsOf(n, k) <= {p} then
      n.(refs := n.refs - {k}, mountDirs := n.mountDirs - {k}, tokens := n.tokens - {k}, mounted := n.mounted - {k})
    else n.(refs := n.refs[k := n.refs[k] - {p}])
  }

  function CleanedAll(n: Node, todo: seq<Ref>): Node
    decreases |todo|
  {
    if todo == [] then n else CleanedAll(Cleaned(n, todo[0].key, todo[0].pod), todo[1..])
  }

  /** The pods whose references to a key are on the list. */
  function Listed(todo: seq<Ref>, k: Key): set<Pod> {
    set i | 0 <= i < |todo| && todo[i].key == k :: todo[i].pod
  }

  /** The net effect on one key of dropping the references of some pods. */
  predicate Unreferenced(n: Node, m: Node, k: Key, gone: set<Pod>) {
    && RefsOf(m, k) == RefsOf(n, k) - gone
    && (if RefsOf(n, k) != {} && RefsOf(n, k) <= gone
        then k !in m.refs && k !in m.mounted && k !in m.mountDirs && k !in m.tokens
        else (k in m.refs <==> k in n.refs) && (k in m.mounted <==> k in n.mounted)
             && (k in m.mountDirs <==> k in n.mountDirs) && (k in m.tokens <==> k in n.tokens))
  }

  /** Every marker on the list is there, and on it once. */
  predicate Present(n: Node, todo: seq<Ref>) {
    && (forall i | 0 <= i < |todo| :: todo[i].pod in RefsOf(n, todo[i].key))
    && (forall i, j | 0 <= i < j < |todo| :: todo[i] != todo[j])
  }

  lemma CleanedKeepsPresent(n: Node, todo: seq<Ref>)
    requires Present(n, todo) && todo != []
    ensures Present(Cleaned(n, todo[0].key, todo[0].pod), todo[1..])
  {
    var m, rest := Cleaned(n, todo[0].key, todo[0].pod), todo[1..];
    forall i | 0 <= i < |rest| ensures rest[i].pod in RefsOf(m, rest[i].key) {
      assert rest[i] == todo[i + 1] && todo[i + 1] != todo[0];
    }
  }

  lemma ListedCons(todo: seq<Ref>, k: Key)
    requires todo != []
    ensures Listed(todo, k) == Listed(todo[1..], k) + (if todo[0].key == k then {todo[0].pod} else {})
  {
    forall p ensures p in Listed(todo, k) <==> p in Listed(todo[1..], k) || (todo[0].key == k && p == todo[0].pod) {
      if p in Listed(todo, k) {
        var i :| 0 <= i < |todo| && todo[i].key == k && todo[i].pod == p;
        assert i > 0 ==> todo[1..][i - 1] == todo[i];
      }
      if p in Listed(todo[1..], k) {
        var i :| 0 <= i < |todo[1..]| && todo[1..][i].key == k && todo[1..][i].pod == p;
        assert todo[i + 1] == todo[1..][i];
      }
    }
  }

  /** The markers on the list for a key are its references. */
  lemma ListedArePresent(n: Node, todo: seq<Ref>, k: Key)
    requires Present(n, todo)
    ensures Listed(todo, k) <= RefsOf(n, k)
  {
    forall p | p in Listed(todo, k) ensures p in RefsOf(n, k) {
      var i :| 0 <= i < |todo| && todo[i].key == k && todo[i].pod == p;
    }
  }

  lemma {:induction false} CleanedAllEffect(n: Node, todo: seq<Ref>, k: Key)
    requires Present(n, todo)
    ensures Unreferenced(n, CleanedAll(n, todo), k, Listed(todo, k))
    ensures CleanedAll(n, todo).bound == n.bound
    decreases |todo|
  {
    if todo != [] {
      var m := Cleaned(n, todo[0].key, todo[0].pod);
      CleanedKeepsPresent(n, todo);
      CleanedAllEffect(m, todo[1..], k);
      ListedCons(todo, k);
      ListedArePresent(m, todo[1..], k);
    }
  }

  /** The RPC in flight, alone, at a given step. */
  predicate At(tr: seq<Event>, r: Rpc, o: Outcome, n: Node, pc: Pc) {
    Run(tr) == Lone(o, r) && o.node == n && o.pc == pc
  }

  /** Only steps that succeed were added. */
  predicate GoesOn(tr: seq<Event>, tr': seq<Event>) {
    tr <= tr' && forall i | |tr| <= i < |tr'| :: tr'[i] == Move(0, WORKS)
  }

  lemma TakeKey(tr: seq<Event>, r: Rpc, o: Outcome, k: Key, p: Pod, todo: seq<Ref>)
    returns (tr': seq<Event>, o': Outcome)
    requires At(tr, r, o, o.node, NextKey([Ref(k, p)] + todo, true)) && KeyLock(k) !in o.locks && p in RefsOf(o.node, k)
    ensures At(tr', r, o', WithoutRef(o.node, k, p), RemoveRefsDir(k, todo, true)) && o'.locks == o.locks + {KeyLock(k)}
    ensures GoesOn(tr, tr')
  {
    tr', o' := CleanUpOn(tr, r, o, WORKS);
    assert ([Ref(k, p)] + todo)[1..] == todo;
    tr', o' := CleanUpOn(tr', r, o', WORKS);
  }

  lemma FreeTheKey(tr: seq<Event>, r: Rpc, o: Outcome, k: Key, todo: seq<Ref>) returns (tr': seq<Event>, o': Outcome)
    requires At(tr, r, o, o.node, FreeKey(k, todo, true))
    ensures At(tr', r, o', o.node, NextKey(todo, true)) && o'.locks == o.locks - {KeyLock(k)}
    ensures GoesOn(tr, tr')
  {
    tr', o' := CleanUpOn(tr, r, o, WORKS);
  }

  /** unmountPath on a shared mount with no fault. */
  lemma UnmountAlone(tr: seq<Event>, r: Rpc, o: Outcome, k: Key, todo: seq<Ref>) returns (tr': seq<Event>, o': Outcome)
    requires At(tr, r, o, o.node, Unmounting(Probe, Teardown(k, todo, true)))
    ensures At(tr', r, o', o.node.(mounted := o.node.mounted - {k}), Unmounting(RemoveDir, Teardown(k, todo, true)))
    ensures o'.locks == o.locks && GoesOn(tr, tr')
  {
    tr', o' := UnmountOn(tr, r, o, WORKS);
    if o'.pc.phase.Standard? {
      tr', o' := UnmountOn(tr', r, o', WORKS);
    } else {
      assert o.node.mounted - {k} == o.node.mounted;
    }
  }

  lemma RemoveMountDir(tr: seq<Event>, r: Rpc, o: Outcome, k: Key, todo: seq<Ref>)
    returns (tr': seq<Event>, o': Outcome)
    requires At(tr, r, o, o.node, Unmounting(RemoveDir, Teardown(k, todo, true)))
    ensures At(tr', r, o', o.node.(mountDirs := o.node.mountDirs - {k}), WipeKeyDir(k, todo, true))
    ensures o'.locks == o.locks && GoesOn(tr, tr')
  {
    tr', o' := UnmountOn(tr, r, o, WORKS);
  }

  lemma WipeAlone(tr: seq<Event>, r: Rpc, o: Outcome, k: Key, todo: seq<Ref>) returns (tr': seq<Event>, o': Outcome)
    requires At(tr, r, o, o.node, Unmounting(RemoveDir, Teardown(k, todo, true)))
    requires k !in o.node.refs && k !in o.node.mounted
    ensures At(tr', r, o', o.node.(mountDirs := o.node.mountDirs - {k}, tokens := o.node.tokens - {k}),
               FreeKey(k, todo, true)) && o'.locks == o.locks
    ensures GoesOn(tr, tr')
  {
    tr', o' := RemoveMountDir(tr, r, o, k, todo);
    var n := o'.node;
    assert !InUse(n, k) && n.refs - {k} == n.refs && n.mountDirs - {k} == n.mountDirs;
    tr', o' := CleanUpOn(tr', r, o', WORKS);
  }

  lemma RemoveRefsDirAlone(tr: seq<Event>, r: Rpc, o: Outcome, k: Key, todo: seq<Ref>)
    returns (tr': seq<Event>, o': Outcome)
    requires At(tr, r, o, o.node, RemoveRefsDir(k, todo, true)) && k in o.node.refs
    ensures o.node.refs[k] == {} ==>
              At(tr', r, o', WithoutRefsDir(o.node, k), Unmounting(Probe, Teardown(k, todo, true)))
    ensures o.node.refs[k] != {} ==> At(tr', r, o', o.node, FreeKey(k, todo, true))
    ensures o'.locks == o.locks && GoesOn(tr, tr')
  {
    tr', o' := CleanUpOn(tr, r, o, WORKS);
  }

  /** The last reference is gone: the refs directory, the mount and the key directory go too. */
  lemma TearDownAlone(tr: seq<Event>, r: Rpc, o: Outcome, k: Key, todo: seq<Ref>) returns (tr': seq<Event>, o': Outcome)
    requires At(tr, r, o, o.node, RemoveRefsDir(k, todo, true)) && k in o.node.refs && o.node.refs[k] == {}
    ensures At(tr', r, o', o.node.(refs := o.node.refs - {k}, mountDirs := o.node.mountDirs - {k},
                                   tokens := o.node.tokens - {k}, mounted := o.node.mounted - {k}),
               FreeKey(k, todo, true))
    ensures o'.locks == o.locks && GoesOn(tr, tr')
  {
    tr', o' := RemoveRefsDirAlone(tr, r, o, k, todo);
    tr', o' := UnmountAlone(tr', r, o', k, todo);
    tr', o' := WipeAlone(tr', r, o', k, todo);
  }

  lemma CleanOne(tr: seq<Event>, r: Rpc, o: Outcome, k: Key, p: Pod, todo: seq<Ref>)
    returns (tr': seq<Event>, o': Outcome)
    requires At(tr, r, o, o.node, NextKey([Ref(k, p)] + todo, true)) && KeyLock(k) !in o.locks && p in RefsOf(o.node, k)
    ensures At(tr', r, o', Cleaned(o.node, k, p), NextKey(todo, true)) && o'.locks == o.locks
    ensures GoesOn(tr, tr')
  {
    var n := o.node;
    tr', o' := TakeKey(tr, r, o, k, p, todo);
    assert o'.node.refs - {k} == n.refs - {k};
    if n.refs[k] == {p} {
      tr', o' := TearDownAlone(tr', r, o', k, todo);
    } else {
      assert !(n.refs[k] <= {p});
      tr', o' := RemoveRefsDirAlone(tr', r, o', k, todo);
    }
    tr', o' := FreeTheKey(tr', r, o', k, todo);
    assert o.locks + {KeyLock(k)} - {KeyLock(k)} == o.locks;
  }

  lemma {:induction false} CleanList(tr: seq<Event>, r: Rpc, o: Outcome, todo: seq<Ref>)
    returns (tr': seq<Event>, o': Outcome)
    requires At(tr, r, o, o.node, NextKey(todo, true)) && (forall k: Key :: KeyLock(k) !in o.locks)
    requires Present(o.node, todo)
    ensures At(tr', r, o', CleanedAll(o.node, todo), NextKey([], true)) && o'.locks == o.locks
    ensures GoesOn(tr, tr')
    decreases |todo|
  {
    tr', o' := tr, o;
    if todo != [] {
      CleanedKeepsPresent(o.node, todo);
      assert todo == [Ref(todo[0].key, todo[0].pod)] + todo[1..];
      tr', o' := CleanOne(tr, r, o, todo[0].key, todo[0].pod, todo[1..]);
      tr', o' := CleanList(tr', r, o', todo[1..]);
    }
  }

  /** unmountPath on the target, whether or not it is bound. */
  lemma UnbindAlone(tr: seq<Event>, r: Rpc, o: Outcome) returns (tr': seq<Event>, o': Outcome)
    requires Run(tr) == Lone(o, r) && o.pc.Unmounting? && o.pc.phase.Probe?
    requires o.pc.caller.Unpublishing? || o.pc.caller.OwnershipFailed? || o.pc.caller.BindFailed?
    ensures At(tr', r, o', o.node.(bound := o.node.bound - {r.target}), Unmounting(RemoveDir, o.pc.caller))
    ensures o'.locks == o.locks && GoesOn(tr, tr')
  {
    tr', o' := UnmountOn(tr, r, o, WORKS);
    if o'.pc.phase.Standard? {
      tr', o' := UnmountOn(tr', r, o', WORKS);
    } else {
      assert o.node.bound - {r.target} == o.node.bound;
    }
  }

  /** The whole of unmountPath on the target. */
  lemma UnmountTarget(tr: seq<Event>, r: Rpc, o: Outcome) returns (tr': seq<Event>, o': Outcome)
    requires Run(tr) == Lone(o, r) && o.pc.Unmounting? && o.pc.phase.Probe?
    requires o.pc.caller.Unpublishing? || o.pc.caller.OwnershipFailed? || o.pc.caller.BindFailed?
    ensures At(tr', r, o', o.node.(bound := o.node.bound - {r.target}), AfterUnmount(o.pc.caller, true))
    ensures o'.locks == o.locks && GoesOn(tr, tr')
  {
    tr', o' := UnbindAlone(tr, r, o);
    tr', o' := UnmountOn(tr', r, o', WORKS);
  }

  lemma FinishAlone(tr: seq<Event>, r: Rpc, o: Outcome) returns (tr': seq<Event>)
    requires At(tr, r, o, o.node, NextKey([], true)) && o.locks == {TargetLock(r.target)}
    ensures Run(tr') == State({}, o.node, map[]) && GoesOn(tr, tr') && Answers(tr', Unpublished)
  {
    var o' := o;
    tr', o' := CleanUpOn(tr, r, o, WORKS);
    tr' := Finish(tr', r, o');
  }

  /** The references to a key that fit the pattern. */
  function Fitted(n: Node, q: Pod, k: Key): set<Pod> {
    set p | p in RefsOf(n, k) && Match(q, p)
  }

  /** The glob finds every marker that fits, each once, in any order. */
  ghost predicate Finds(n: Node, q: Pod, refs: seq<Ref>) {
    && (forall x: Ref :: x in refs <==> x.pod in Fitted(n, q, x.key))
    && (forall i, j | 0 <= i < j < |refs| :: refs[i] != refs[j])
  }

  lemma FoundIsListed(n: Node, q: Pod, refs: seq<Ref>, k: Key)
    requires Finds(n, q, refs)
    ensures Present(n, refs) && Listed(refs, k) == Fitted(n, q, k)
  {
    forall i | 0 <= i < |refs| ensures refs[i].pod in RefsOf(n, refs[i].key) {
      assert refs[i] in refs;
    }
    forall p ensures p in Listed(refs, k) <==> p in Fitted(n, q, k) {
      if p in Fitted(n, q, k) {
        assert Ref(k, p) in refs;
      }
      if p in Listed(refs, k) {
        var i :| 0 <= i < |refs| && refs[i].key == k && refs[i].pod == p;
        assert refs[i] in refs;
      }
    }
  }

  predicate UnpublishEvent(e: Event, u: Target, q: Option<Pod>, refs: seq<Ref>) {
    e == Begin(0, Unpublish(u, q)) || e == Move(0, WORKS) || e == Move(0, WORKS.(matches := refs))
  }

  /** tr' goes on from tr with one unpublish in which every call succeeds. */
  predicate Unpublishes(tr: seq<Event>, tr': seq<Event>, u: Target, q: Option<Pod>, refs: seq<Ref>) {
    tr <= tr' && forall i | |tr| <= i < |tr'| :: UnpublishEvent(tr'[i], u, q, refs)
  }

  lemma UnpublishesOn(tr: seq<Event>, tr': seq<Event>, tr'': seq<Event>, u: Target, q: Option<Pod>, refs: seq<Ref>)
    requires Unpublishes(tr, tr', u, q, refs) && GoesOn(tr', tr'')
    ensures Unpublishes(tr, tr'', u, q, refs)
  {
    forall i | |tr| <= i < |tr''| ensures UnpublishEvent(tr''[i], u, q, refs) {
      if i < |tr'| {
        assert tr''[i] == tr'[i];
      }
    }
  }

  lemma UnpublishUpToDir(tr: seq<Event>, u: Target, q: Pod) returns (tr': seq<Event>, o: Outcome)
    requires Idle(tr)
    ensures var n := Run(tr).node;
            At(tr', Started(Unpublish(u, Some(q))), o, n.(bound := n.bound - {u}),
               Unmounting(RemoveDir, Unpublishing(true)))
    ensures o.locks == {TargetLock(u)} && Unpublishes(tr, tr', u, Some(q), [])
  {
    tr', o := Start(tr, Unpublish(u, Some(q)));
    tr', o := UnbindAlone(tr', Started(Unpublish(u, Some(q))), o);
  }

  lemma FindKeys(tr: seq<Event>, r: Rpc, o: Outcome, refs: seq<Ref>) returns (tr': seq<Event>, o': Outcome)
    requires At(tr, r, o, o.node, Unmounting(RemoveDir, Unpublishing(true)))
    requires WellFormed(r.pod) && forall x | x in refs :: Match(r.pod, x.pod)
    ensures At(tr', r, o', o.node, NextKey(refs, true)) && o'.locks == o.locks
    ensures tr' == tr + [Move(0, WORKS), Move(0, WORKS.(matches := refs))]
  {
    tr', o' := UnmountOn(tr, r, o, WORKS);
    tr', o' := CleanUpOn(tr', r, o', WORKS.(matches := refs));
  }

  lemma UnpublishUpToKeys(tr: seq<Event>, u: Target, q: Pod, refs: seq<Ref>) returns (tr': seq<Event>, o: Outcome)
    requires Idle(tr) && WellFormed(q) && forall x | x in refs :: Match(q, x.pod)
    ensures var n := Run(tr).node;
            At(tr', Started(Unpublish(u, Some(q))), o, n.(bound := n.bound - {u}), NextKey(refs, true))
    ensures o.locks == {TargetLock(u)} && Unpublishes(tr, tr', u, Some(q), refs)
  {
    tr', o := UnpublishUpToDir(tr, u, q);
    tr', o := FindKeys(tr', Started(Unpublish(u, Some(q))), o, refs);
  }

  /** A pod UID that is no pattern at all matches nothing, and the unpublish ends there with an error. */
  lemma UnpublishMalformed(tr: seq<Event>, u: Target, q: Pod) returns (tr': seq<Event>)
    requires Idle(tr) && !WellFormed(q)
    ensures Idle(tr') && Unpublishes(tr, tr', u, Some(q), []) && Answers(tr', Failed)
    ensures var n := Run(tr).node; Run(tr').node == n.(bound := n.bound - {u})
  {
    var r, o := Started(Unpublish(u, Some(q))), Outcome(INITIAL.node, {}, Done);
    tr', o := Start(tr, Unpublish(u, Some(q)));
    tr', o := UnmountTarget(tr', r, o);
    tr', o := CleanUpOn(tr', r, o, WORKS);
    tr' := Finish(tr', r, o);
  }

  lemma CleanedFound(n: Node, m: Node, q: Pod, refs: seq<Ref>, k: Key)
    requires Finds(n, q, refs) && m == n.(bound := m.bound)
    ensures Present(m, refs) && CleanedAll(m, refs).bound == m.bound
    ensures Unreferenced(n, CleanedAll(m, refs), k, Fitted(n, q, k))
  {
    FoundIsListed(n, q, refs, k);
    assert Present(m, refs);
    CleanedAllEffect(m, refs, k);
  }

  lemma UnpublishUpToEnd(tr: seq<Event>, u: Target, q: Pod, refs: seq<Ref>) returns (tr': seq<Event>, o: Outcome)
    requires Idle(tr) && Finds(Run(tr).node, q, refs) && WellFormed(q)
    ensures var n := Run(tr).node;
            At(tr', Started(Unpublish(u, Some(q))), o, CleanedAll(n.(bound := n.bound - {u}), refs), NextKey([], true))
    ensures o.locks == {TargetLock(u)} && Unpublishes(tr, tr', u, Some(q), refs)
  {
    var found, o' := UnpublishUpToKeys(tr, u, q, refs);
    CleanedFound(Run(tr).node, o'.node, q, refs, "");
    tr', o := CleanList(found, Started(Unpublish(u, Some(q))), o', refs);
    UnpublishesOn(tr, found, tr', u, Some(q), refs);
  }

  lemma UnpublishWellFormed(tr: seq<Event>, u: Target, q: Pod, refs: seq<Ref>) returns (tr': seq<Event>)
    requires Idle(tr) && Finds(Run(tr).node, q, refs) && WellFormed(q)
    ensures Idle(tr') && Unpublishes(tr, tr', u, Some(q), refs) && Answers(tr', Unpublished)
    ensures Run(tr').node.bound == Run(tr).node.bound - {u}
    ensures forall k: Key :: Unreferenced(Run(tr).node, Run(tr').node, k, Fitted(Run(tr).node, q, k))
  {
    var n := Run(tr).node;
    var end, o := UnpublishUpToEnd(tr, u, q, refs);
    tr' := FinishAlone(end, Started(Unpublish(u, Some(q))), o);
    UnpublishesOn(tr, end, tr', u, Some(q), refs);
    forall k: Key ensures Unreferenced(n, Run(tr').node, k, Fitted(n, q, k)) {
      CleanedFound(n, n.(bound := n.bound - {u}), q, refs, k);
    }
    CleanedFound(n, n.(bound := n.bound - {u}), q, refs, "");
  }

  lemma MalformedFitsNothing(n: Node, q: Pod, k: Key)
    requires !WellFormed(q)
    ensures Fitted(n, q, k) == {}
  {
    forall p | p in RefsOf(n, k) ensures !Match(q, p) {
      if Match(q, p) {
        MatchIsWellFormed(q, p);
      }
    }
  }

  /**
   Unpublishing a target alone, with the glob finding the markers in any order: the driver is idle again, the
   target is unbound, every reference that fits the pod in its path is gone, and a key is torn down exactly when
   no reference is left. The answer is success exactly when the pod UID is well-formed as a pattern.
   */
  lemma UnpublishAlone(tr: seq<Event>, u: Target, q: Pod, refs: seq<Ref>) returns (tr': seq<Event>)
    requires Idle(tr) && Finds(Run(tr).node, q, refs)
    ensures Idle(tr') && Unpublishes(tr, tr', u, Some(q), refs)
    ensures Answers(tr', if WellFormed(q) then Unpublished else Failed)
    ensures Run(tr').node.bound == Run(tr).node.bound - {u}
    ensures forall k: Key :: Unreferenced(Run(tr).node, Run(tr').node, k, Fitted(Run(tr).node, q, k))
  {
    if WellFormed(q) {
      tr' := UnpublishWellFormed(tr, u, q, refs);
    } else {
      tr' := UnpublishMalformed(tr, u, q);
      forall k: Key ensures Unreferenced(Run(tr).node, Run(tr').node, k, Fitted(Run(tr).node, q, k)) {
        MalformedFitsNothing(Run(tr).node, q, k);
      }
    }
  }

  /** Unpublishing a target whose path names no pod, alone: the target is unbound, and nothing else changes. */
  lemma UnpublishNobody(tr: seq<Event>, u: Target) returns (tr': seq<Event>)
    requires Idle(tr)
    ensures Idle(tr') && Unpublishes(tr, tr', u, None, []) && Answers(tr', Unpublished)
    ensures var n := Run(tr).node; Run(tr').node == n.(bound := n.bound - {u})
  {
    var r, o := Started(Unpublish(u, None)), Outcome(INITIAL.node, {}, Done);
    tr', o := Start(tr, Unpublish(u, None));
    tr', o := UnmountTarget(tr', r, o);
    tr' := Finish(tr', r, o);
  }

  /** No reference is there that fits the pod, and the pod would fit its own. */
  ghost predicate Newcomer(n: Node, q: Pod) {
    Match(q, q) && forall k: Key :: Fitted(n, q, k) == {}
  }

  /** A pod whose UID has no pattern characters is a newcomer exactly when it has no reference. */
  lemma LiteralNewcomer(n: Node, q: Pod)
    requires Literal(q)
    ensures Newcomer(n, q) <==> forall k: Key :: q !in RefsOf(n, k)
  {
    LiteralMatchesItself(q, q);
    forall k: Key ensures Fitted(n, q, k) == {} <==> q !in RefsOf(n, k) {
      forall p | p in RefsOf(n, k) ensures Match(q, p) <==> p == q {
        LiteralMatchesItself(q, p);
      }
      if q in RefsOf(n, k) {
        assert q in Fitted(n, q, k);
      }
    }
  }

  lemma PublishedIsFound(n: Node, m: Node, q: Pod, key: Key)
    requires Newcomer(n, q) && forall k: Key :: RefsOf(m, k) == RefsOf(n, k) + (if k == key then {q} else {})
    ensures Finds(m, q, [Ref(key, q)]) && forall k: Key :: Fitted(m, q, k) == if k == key then {q} else {}
  {
    forall k: Key ensures Fitted(m, q, k) == if k == key then {q} else {} {
      assert Fitted(n, q, k) == {};
      forall p | p in RefsOf(n, k) ensures !Match(q, p) {
        assert p !in Fitted(n, q, k);
      }
    }
  }

  /** The events of one publish and one unpublish of a volume, in which every call succeeds. */
  predicate RoundTripEvent(e: Event, r: Rpc) {
    PublishEvent(e, r.target, r.pod, r.key) || UnpublishEvent(e, r.target, Some(r.pod), [Ref(r.key, r.pod)])
  }

  predicate RoundTrips(tr: seq<Event>, tr': seq<Event>, r: Rpc) {
    tr <= tr' && forall i | |tr| <= i < |tr'| :: RoundTripEvent(tr'[i], r)
  }

  /** A key that was balanced gets back its references and its mount. */
  lemma RoundTripKey(n: Node, m: Node, m': Node, r: Rpc, k: Key)
    requires Newcomer(n, r.pod) && Balanced(n, k)
    requires m.refs == Referenced(n, r.key, r.pod).refs && m.mounted == n.mounted + {r.key}
    requires Fitted(m, r.pod, k) == (if k == r.key then {r.pod} else {})
    requires Unreferenced(m, m', k, Fitted(m, r.pod, k))
    ensures RefsOf(m', k) == RefsOf(n, k) && (k in m'.mounted <==> k in n.mounted)
  {
    NewcomerHasNone(n, r.pod, k);
  }

  /**
   Publishing an IAM volume and unpublishing it again, from any idle state of a run without faults in which the
   pod is a newcomer and the target is not bound, gives back every reference set and every mount.
   */
  lemma PublishUnpublishRoundTrip(tr: seq<Event>, r: Rpc) returns (tr': seq<Event>)
    requires (forall e | e in tr :: FaultFree(e)) && Fresh(tr, r) && Newcomer(Run(tr).node, r.pod)
    ensures RoundTrips(tr, tr', r) && Idle(tr') && Run(tr').node.bound == Run(tr).node.bound
    ensures forall k: Key :: RefsOf(Run(tr').node, k) == RefsOf(Run(tr).node, k)
    ensures forall k: Key :: k in Run(tr').node.mounted <==> k in Run(tr).node.mounted
  {
    var n := Run(tr).node;
    tr' := PublishAlone(tr, r);
    var m := Run(tr').node;
    assert m.bound - {r.target} == n.bound;
    PublishedIsFound(n, m, r.pod, r.key);
    tr' := UnpublishAlone(tr', r.target, r.pod, [Ref(r.key, r.pod)]);
    var m' := Run(tr').node;
    forall k: Key ensures RefsOf(m', k) == RefsOf(n, k) && (k in m'.mounted <==> k in n.mounted) {
      FreeKeyIsBalanced(tr, k);
      RoundTripKey(n, m, m', r, k);
    }
  }

  lemma NewcomerHasNone(n: Node, q: Pod, k: Key)
    requires Newcomer(n, q)
    ensures q !in RefsOf(n, k)
  {
    assert Fitted(n, q, k) == {};
    assert q in RefsOf(n, k) ==> q in Fitted(n, q, k);
  }
}
