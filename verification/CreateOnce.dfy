/**
 CreateVolume against an asynchronous backend (pkg/csi_driver/controller.go), as a transition
 system. A call may time out or lose its reply after the backend accepted it, and an accepted
 creation goes on without the RPC, to complete or to fail. Many RPCs interleave, serialised by
 the lock on the volume name.

 The backend: an accepted creation is accepted before CreateInstance returns; its instance is
 visible from then on until the creation fails; operations are never forgotten. The driver asks
 for no order of operations, so a listing may be any permutation of the log.
 */
module CreateOnce {
  import opened Operations

  datatype Backend = Backend(live: set<FullName>, ops: seq<Operation>)

  datatype Pc = GetInstance | ListOps | Prepare | Send | Wait | Release

  datatype Rpc = Rpc(fn: FullName, pc: Pc)

  datatype State = State(locks: set<string>, backend: Backend, rpcs: map<nat, Rpc>)

  /**
   ok: the call succeeds. effect: a creation whose call reports failure was accepted all the same.
   listing: the operations as they are listed, [] for the log's own order, oldest first.
   */
  datatype Choice = Choice(ok: bool, effect: bool, listing: seq<Operation>)

  datatype Event =
    | Begin(id: nat, fn: FullName)
    | Move(id: nat, choice: Choice)
    | Complete(op: nat)
    | Fail(op: nat)
    | Delete(fn: FullName)

  const INITIAL := State({}, Backend({}, []), map[])

  function Accepted(b: Backend, fn: FullName): Backend {
    Backend(b.live + {fn}, b.ops + [Create(fn, Running)])
  }

  function NextPc(b: Backend, r: Rpc, c: Choice): Pc {
    match r.pc
    case GetInstance => if !c.ok || r.fn in b.live then Release else ListOps
    case ListOps =>
      var op := FirstCreate(InOrder(b.ops, c.listing), r.fn);
      if !c.ok || (op.Some? && op.value.status == Failed) then Release else Prepare
    case Prepare => if c.ok then Send else Release
    case Send => if c.ok then Wait else Release
    case Wait => Release
    case Release => Release
  }

  predicate Running?(b: Backend, i: nat) {
    i < |b.ops| && b.ops[i].Create? && b.ops[i].status == Running
  }

  function Apply(s: State, e: Event): State {
    match e
    case Begin(id, fn) =>
      if id in s.rpcs || fn.name in s.locks then s
      else State(s.locks + {fn.name}, s.backend, s.rpcs[id := Rpc(fn, GetInstance)])
    case Move(id, c) =>
      if id !in s.rpcs then s
      else
        var r := s.rpcs[id];
        if r.pc == Release then State(s.locks - {r.fn.name}, s.backend, s.rpcs - {id})
        else
          var accepts := r.pc == Send && (c.ok || c.effect);
          State(s.locks, if accepts then Accepted(s.backend, r.fn) else s.backend,
                s.rpcs[id := r.(pc := NextPc(s.backend, r, c))])
    case Complete(i) =>
      if !Running?(s.backend, i) then s
      else s.(backend := s.backend.(ops := s.backend.ops[i := Create(s.backend.ops[i].target, Succeeded)]))
    case Fail(i) =>
      if !Running?(s.backend, i) then s
      else s.(backend := Backend(s.backend.live - {s.backend.ops[i].target},
                                 s.backend.ops[i := Create(s.backend.ops[i].target, Failed)]))
    case Delete(fn) => s.(backend := s.backend.(live := s.backend.live - {fn}))
  }

  function Run(tr: seq<Event>): State {
    if tr == [] then INITIAL else Apply(Run(tr[..|tr| - 1]), tr[|tr| - 1])
  }

  // ---- the invariant, for an instance that is never deleted ----

  /** At most one creation of the instance was ever accepted. */
  ghost predicate CreatedOnce(b: Backend, fn: FullName) {
    forall i, j | 0 <= i < j < |b.ops| && IsCreateOf(b.ops[i], fn) :: !IsCreateOf(b.ops[j], fn)
  }

  ghost predicate Visible(b: Backend, fn: FullName) {
    forall i | 0 <= i < |b.ops| && IsCreateOf(b.ops[i], fn) && b.ops[i].status != Failed :: fn in b.live
  }

  ghost predicate Unasked(b: Backend, fn: FullName) {
    forall i | 0 <= i < |b.ops| :: !IsCreateOf(b.ops[i], fn)
  }

  ghost predicate RpcOk(b: Backend, r: Rpc, fn: FullName) {
    r.fn == fn ==>
      && (r.pc == ListOps ==> fn !in b.live)
      && (r.pc == Prepare || r.pc == Send ==> Unasked(b, fn))
  }

  /** The locked names are exactly those of the RPCs in flight, and no two have the same. */
  ghost predicate Locked(s: State) {
    && (forall i | i in s.rpcs :: s.rpcs[i].fn.name in s.locks)
    && (forall i, j | i in s.rpcs && j in s.rpcs && i != j :: s.rpcs[i].fn.name != s.rpcs[j].fn.name)
    && (forall n | n in s.locks :: exists i :: i in s.rpcs && s.rpcs[i].fn.name == n)
  }

  lemma BeginKeepsLocked(s: State, id: nat, fn: FullName)
    requires Locked(s)
    ensures Locked(Apply(s, Begin(id, fn)))
  {
    var s' := Apply(s, Begin(id, fn));
    forall n | n in s'.locks ensures exists i :: i in s'.rpcs && s'.rpcs[i].fn.name == n {
      if n in s.locks {
        var i :| i in s.rpcs && s.rpcs[i].fn.name == n;
        assert i in s'.rpcs && s'.rpcs[i].fn.name == n;
      } else {
        assert s'.rpcs[id].fn.name == n;
      }
    }
  }

  lemma MoveKeepsLocked(s: State, id: nat, c: Choice)
    requires Locked(s) && id in s.rpcs
    ensures Locked(Apply(s, Move(id, c)))
  {
    var s' := Apply(s, Move(id, c));
    forall n | n in s'.locks ensures exists i :: i in s'.rpcs && s'.rpcs[i].fn.name == n {
      var i :| i in s.rpcs && s.rpcs[i].fn.name == n;
      assert i in s'.rpcs && s'.rpcs[i].fn.name == n;
    }
  }

  /** In every run, deletes included, the lock set is exactly what the RPCs in flight hold. */
  lemma {:induction false} LocksAreExact(tr: seq<Event>)
    ensures Locked(Run(tr)) && (Run(tr).rpcs == map[] ==> Run(tr).locks == {})
  {
    if tr != [] {
      var s, e := Run(tr[..|tr| - 1]), tr[|tr| - 1];
      LocksAreExact(tr[..|tr| - 1]);
      if e.Begin? {
        BeginKeepsLocked(s, e.id, e.fn);
      } else if e.Move? && e.id in s.rpcs {
        MoveKeepsLocked(s, e.id, e.choice);
      }
    }
  }

  ghost predicate Ok(s: State, fn: FullName) {
    && Locked(s)
    && CreatedOnce(s.backend, fn)
    && Visible(s.backend, fn)
    && forall id | id in s.rpcs :: RpcOk(s.backend, s.rpcs[id], fn)
  }

  /**
   Looking for an instance and then for its creation, in any order of the log: nothing visible and no failure
   on record means never asked.
   */
  lemma ListingDecides(b: Backend, c: Choice, fn: FullName)
    requires Visible(b, fn) && fn !in b.live
    ensures var op := FirstCreate(InOrder(b.ops, c.listing), fn);
            (op.Some? && op.value.status == Failed) || Unasked(b, fn)
  {
    var op := FirstCreate(InOrder(b.ops, c.listing), fn);
    if op.None? {
      forall i | 0 <= i < |b.ops| ensures !IsCreateOf(b.ops[i], fn) {
        assert b.ops[i] in multiset(InOrder(b.ops, c.listing));
      }
    } else {
      assert op.value in multiset(b.ops);
    }
  }

  lemma MoveKeepsBackend(s: State, id: nat, c: Choice, fn: FullName)
    requires Ok(s, fn) && id in s.rpcs
    ensures var b := Apply(s, Move(id, c)).backend;
            CreatedOnce(b, fn) && Visible(b, fn) && (b == s.backend || b == Accepted(s.backend, s.rpcs[id].fn))
  {
    assert RpcOk(s.backend, s.rpcs[id], fn);
  }

  /** The RPC that moves knows what it has to know. */
  lemma MoveKeepsOwn(s: State, id: nat, c: Choice, fn: FullName)
    requires Ok(s, fn) && id in s.rpcs
    ensures var s' := Apply(s, Move(id, c)); id in s'.rpcs ==> RpcOk(s'.backend, s'.rpcs[id], fn)
  {
    var r := s.rpcs[id];
    assert RpcOk(s.backend, r, fn);
    if r.pc == ListOps && r.fn == fn {
      ListingDecides(s.backend, c, fn);
    }
  }

  lemma MoveKeepsOther(s: State, id: nat, c: Choice, fn: FullName, i: nat)
    requires Ok(s, fn) && id in s.rpcs && i in s.rpcs && i != id
    ensures RpcOk(Apply(s, Move(id, c)).backend, s.rpcs[i], fn)
  {
    assert RpcOk(s.backend, s.rpcs[i], fn) && s.rpcs[i].fn != s.rpcs[id].fn;
    MoveKeepsBackend(s, id, c, fn);
  }

  lemma MoveKeepsOk(s: State, id: nat, c: Choice, fn: FullName)
    requires Ok(s, fn) && id in s.rpcs
    ensures Ok(Apply(s, Move(id, c)), fn)
  {
    var s' := Apply(s, Move(id, c));
    MoveKeepsBackend(s, id, c, fn);
    MoveKeepsLocked(s, id, c);
    forall i | i in s'.rpcs ensures RpcOk(s'.backend, s'.rpcs[i], fn) {
      if i == id {
        MoveKeepsOwn(s, id, c, fn);
      } else {
        MoveKeepsOther(s, id, c, fn, i);
      }
    }
  }

  lemma EndKeepsOk(s: State, i: nat, status: Status, fn: FullName)
    requires Ok(s, fn) && Running?(s.backend, i) && status != Running
    ensures Ok(Apply(s, if status == Failed then Fail(i) else Complete(i)), fn)
  {
    var b, b' := s.backend, Apply(s, if status == Failed then Fail(i) else Complete(i)).backend;
    assert forall j | 0 <= j < |b.ops| :: IsCreateOf(b'.ops[j], fn) <==> IsCreateOf(b.ops[j], fn);
    forall id | id in s.rpcs ensures RpcOk(b', s.rpcs[id], fn) {
      assert RpcOk(b, s.rpcs[id], fn);
    }
  }

  lemma OtherDeleteKeepsOk(s: State, other: FullName, fn: FullName)
    requires Ok(s, fn) && other != fn
    ensures Ok(Apply(s, Delete(other)), fn)
  {
    forall id | id in s.rpcs ensures RpcOk(Apply(s, Delete(other)).backend, s.rpcs[id], fn) {
      assert RpcOk(s.backend, s.rpcs[id], fn);
    }
  }

  lemma {:induction false} RunKeepsOk(tr: seq<Event>, fn: FullName)
    requires Delete(fn) !in tr
    ensures Ok(Run(tr), fn)
  {
    if tr != [] {
      var s, e := Run(tr[..|tr| - 1]), tr[|tr| - 1];
      RunKeepsOk(tr[..|tr| - 1], fn);
      assert e in tr;
      match e
      case Begin(id, other) => BeginKeepsLocked(s, id, other);
      case Move(id, c) => if id in s.rpcs { MoveKeepsOk(s, id, c, fn); }
      case Complete(i) => if Running?(s.backend, i) { EndKeepsOk(s, i, Succeeded, fn); }
      case Fail(i) => if Running?(s.backend, i) { EndKeepsOk(s, i, Failed, fn); }
      case Delete(other) => OtherDeleteKeepsOk(s, other, fn);
    }
  }

  predicate Looking(pc: Pc) {
    pc == GetInstance || pc == ListOps || pc == Prepare
  }

  /** The RPC only has its lock to release, and the backend is as given. */
  predicate EndsWith(s: State, s': State, id: nat, b: Backend)
    requires id in s.rpcs
  {
    s' == State(s.locks, b, s.rpcs[id := Rpc(s.rpcs[id].fn, Release)])
  }

  /** In every run a call that fails before the creation is sent ends the RPC with nothing sent. */
  lemma FailedCallSendsNothing(tr: seq<Event>, id: nat, c: Choice)
    requires id in Run(tr).rpcs && Looking(Run(tr).rpcs[id].pc) && !c.ok
    ensures EndsWith(Run(tr), Run(tr + [Move(id, c)]), id, Run(tr).backend)
  {
    assert (tr + [Move(id, c)])[..|tr|] == tr;
  }

  /** A creation whose call fails ends the RPC too, whether or not it was accepted. */
  lemma FailedSendEnds(tr: seq<Event>, id: nat, c: Choice)
    requires id in Run(tr).rpcs && Run(tr).rpcs[id].pc == Send && !c.ok
    ensures EndsWith(Run(tr), Run(tr + [Move(id, c)]), id,
                     if c.effect then Accepted(Run(tr).backend, Run(tr).rpcs[id].fn) else Run(tr).backend)
  {
    assert (tr + [Move(id, c)])[..|tr|] == tr;
  }

  // ---- the promise ----

  /** The backend accepts at most one creation of an instance that is not deleted, whatever fails or times out. */
  lemma AtMostOneCreation(tr: seq<Event>, fn: FullName, i: nat, j: nat)
    requires Delete(fn) !in tr
    requires i < |Run(tr).backend.ops| && j < |Run(tr).backend.ops|
    requires IsCreateOf(Run(tr).backend.ops[i], fn) && IsCreateOf(Run(tr).backend.ops[j], fn)
    ensures i == j
  {
    RunKeepsOk(tr, fn);
  }
}
