/**
 What deleting does to the creation of volumes (pkg/csi_driver/controller.go, pkg/cloud_provider/lustre/lustre.go):
 the exact conditions for the guard against asking again after a failure, and for a single creation.
 */
module CreateOnceGuard {
  import opened Operations
  import opened CreateOnce

  // ---- one CreateVolume on its own ----

  lemma Extend(tr: seq<Event>, e: Event) returns (tr': seq<Event>)
    ensures tr' == tr + [e] && Run(tr') == Apply(Run(tr), e)
  {
    tr' := tr + [e];
    assert tr'[..|tr|] == tr;
  }

  const WORKS := Choice(true, false, [])

  predicate Idle(s: State) {
    s.locks == {} && s.rpcs == map[]
  }

  /** A state with one RPC in flight. */
  function Lone(b: Backend, fn: FullName, pc: Pc): State {
    State({fn.name}, b, map[0 := Rpc(fn, pc)])
  }

  lemma Step(tr: seq<Event>, b: Backend, fn: FullName, pc: Pc) returns (tr': seq<Event>)
    requires Run(tr) == Lone(b, fn, pc) && pc != Release
    ensures tr' == tr + [Move(0, WORKS)]
    ensures Run(tr') == Lone(if pc == Send then Accepted(b, fn) else b, fn, NextPc(b, Rpc(fn, pc), WORKS))
  {
    tr' := Extend(tr, Move(0, WORKS));
  }

  lemma Start(tr: seq<Event>, fn: FullName) returns (tr': seq<Event>)
    requires Idle(Run(tr))
    ensures tr' == tr + [Begin(0, fn)] && Run(tr') == Lone(Run(tr).backend, fn, GetInstance)
  {
    tr' := Extend(tr, Begin(0, fn));
  }

  lemma Finish(tr: seq<Event>, b: Backend, fn: FullName) returns (tr': seq<Event>)
    requires Run(tr) == Lone(b, fn, Release)
    ensures tr' == tr + [Move(0, WORKS)] && Run(tr') == State({}, b, map[])
  {
    tr' := Extend(tr, Move(0, WORKS));
  }

  /** Listed oldest first, the instance is not there and its first creation did not fail. */
  predicate Askable(b: Backend, fn: FullName) {
    fn !in b.live && (FirstCreate(b.ops, fn).None? || FirstCreate(b.ops, fn).value.status != Failed)
  }

  /** Only events of the kind that do not delete and list oldest first were added. */
  predicate GoesOn(tr: seq<Event>, tr': seq<Event>) {
    forall e | e in tr' :: e in tr || e.Begin? || e == Move(0, WORKS)
  }

  /** One CreateVolume on its own, up to the creation. */
  lemma Sending(tr: seq<Event>, fn: FullName) returns (tr': seq<Event>)
    requires Idle(Run(tr)) && Askable(Run(tr).backend, fn)
    ensures Run(tr') == Lone(Run(tr).backend, fn, Send) && GoesOn(tr, tr')
  {
    var b := Run(tr).backend;
    tr' := Start(tr, fn);
    tr' := Step(tr', b, fn, GetInstance);
    assert InOrder(b.ops, WORKS.listing) == b.ops;
    tr' := Step(tr', b, fn, ListOps);
    tr' := Step(tr', b, fn, Prepare);
  }

  /** It is accepted by the backend, and the RPC is gone before the creation ends. */
  lemma CreateAlone(tr: seq<Event>, fn: FullName) returns (tr': seq<Event>)
    requires Idle(Run(tr)) && Askable(Run(tr).backend, fn)
    ensures Run(tr') == State({}, Accepted(Run(tr).backend, fn), map[]) && GoesOn(tr, tr')
  {
    var b := Run(tr).backend;
    tr' := Sending(tr, fn);
    tr' := Step(tr', b, fn, Send);
    tr' := Step(tr', Accepted(b, fn), fn, Wait);
    tr' := Finish(tr', Accepted(b, fn), fn);
  }

  // ---- the guard against asking again after a failure ----

  /** Operations are listed oldest first. */
  predicate OldestFirst(e: Event) {
    e.Move? ==> e.choice.listing == []
  }

  predicate ListsOldestFirst(tr: seq<Event>) {
    forall e | e in tr :: OldestFirst(e)
  }

  /** The event makes the backend accept a creation of the instance. */
  predicate Accepts(s: State, e: Event, fn: FullName) {
    && e.Move? && e.id in s.rpcs && s.rpcs[e.id] == Rpc(fn, Send)
    && (e.choice.ok || e.choice.effect)
  }

  predicate FailedBefore(b: Backend, fn: FullName) {
    Create(fn, Failed) in b.ops
  }

  /** No creation of the instance is accepted when one has failed. */
  ghost predicate GuardKept(tr: seq<Event>, fn: FullName) {
    forall i | 0 <= i < |tr| && Accepts(Run(tr[..i]), tr[i], fn) :: !FailedBefore(Run(tr[..i]).backend, fn)
  }

  /** Only instances of the set are deleted. */
  predicate DeletesOnly(tr: seq<Event>, deleted: set<FullName>) {
    forall e | e in tr && e.Delete? :: e.fn in deleted
  }

  /** In any order of listing, an instance that is not deleted keeps its guard. */
  lemma UndeletedKeepsGuard(tr: seq<Event>, fn: FullName)
    requires Delete(fn) !in tr
    ensures GuardKept(tr, fn)
  {
    forall i | 0 <= i < |tr| && Accepts(Run(tr[..i]), tr[i], fn) ensures !FailedBefore(Run(tr[..i]).backend, fn) {
      RunKeepsOk(tr[..i], fn);
      assert RpcOk(Run(tr[..i]).backend, Run(tr[..i]).rpcs[tr[i].id], fn);
    }
  }

  /** A creation that succeeded, and a delete. */
  lemma SucceedsAndGoes(fn: FullName) returns (tr: seq<Event>)
    ensures Run(tr) == State({}, Backend({}, [Create(fn, Succeeded)]), map[])
    ensures DeletesOnly(tr, {fn}) && ListsOldestFirst(tr)
  {
    tr := CreateAlone([], fn);
    tr := Extend(tr, Complete(0));
    tr := Extend(tr, Delete(fn));
  }

  /** And then a creation that failed. */
  lemma FailsAfterDelete(fn: FullName) returns (tr: seq<Event>)
    ensures Run(tr) == State({}, Backend({}, [Create(fn, Succeeded), Create(fn, Failed)]), map[])
    ensures DeletesOnly(tr, {fn}) && ListsOldestFirst(tr)
  {
    tr := SucceedsAndGoes(fn);
    tr := CreateAlone(tr, fn);
    assert Run(tr).backend == Backend({fn}, [Create(fn, Succeeded), Create(fn, Running)]);
    tr := Extend(tr, Fail(1));
  }

  /**
   Oldest first, a delete defeats the search for a failed creation: it returns the first creation on record,
   which is the one that succeeded before the delete, so after a stockout the driver asks again.
   */
  lemma StockoutGuardIsLost(fn: FullName) returns (tr: seq<Event>)
    ensures !GuardKept(tr, fn) && DeletesOnly(tr, {fn}) && ListsOldestFirst(tr)
    ensures Run(tr).backend.ops == [Create(fn, Succeeded), Create(fn, Failed), Create(fn, Running)]
  {
    tr := FailsAfterDelete(fn);
    assert Run(tr).backend.ops[1] == Create(fn, Failed);
    tr := Sending(tr, fn);
    AcceptingLosesGuard(tr, Move(0, WORKS), fn);
    tr := Extend(tr, Move(0, WORKS));
  }

  lemma AcceptingLosesGuard(tr: seq<Event>, e: Event, fn: FullName)
    requires Accepts(Run(tr), e, fn) && FailedBefore(Run(tr).backend, fn)
    ensures !GuardKept(tr + [e], fn)
  {
    assert (tr + [e])[..|tr|] == tr && (tr + [e])[|tr|] == e;
  }

  /** The exact condition for the guard, listed oldest first: the instance is not one that may be deleted. */
  lemma GuardKeptExactlyWithoutDeletes(deleted: set<FullName>, fn: FullName)
    ensures (forall tr: seq<Event> | DeletesOnly(tr, deleted) && ListsOldestFirst(tr) :: GuardKept(tr, fn))
       <==> fn !in deleted
  {
    if fn in deleted {
      var tr := StockoutGuardIsLost(fn);
      assert DeletesOnly(tr, deleted);
    } else {
      forall tr: seq<Event> | DeletesOnly(tr, deleted) && ListsOldestFirst(tr) ensures GuardKept(tr, fn) {
        UndeletedKeepsGuard(tr, fn);
      }
    }
  }

  /** The exact condition for a single creation, in any order of listing: the same. */
  lemma CreatedOnceExactlyWithoutDeletes(deleted: set<FullName>, fn: FullName)
    ensures (forall tr: seq<Event> | DeletesOnly(tr, deleted) :: CreatedOnce(Run(tr).backend, fn)) <==> fn !in deleted
  {
    if fn in deleted {
      var tr := FailsAfterDelete(fn);
      assert DeletesOnly(tr, deleted);
      assert !CreatedOnce(Run(tr).backend, fn) by {
        assert IsCreateOf(Run(tr).backend.ops[0], fn) && IsCreateOf(Run(tr).backend.ops[1], fn);
      }
    } else {
      forall tr: seq<Event> | DeletesOnly(tr, deleted) ensures CreatedOnce(Run(tr).backend, fn) {
        RunKeepsOk(tr, fn);
      }
    }
  }
}
