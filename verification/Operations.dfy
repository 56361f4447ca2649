/**
 The backend's log of long-running operations and the two searches through it
 (pkg/cloud_provider/lustre/lustre.go).
 */
module Operations {
  import opened Options

  /** projects/<project>/locations/<location>/instances/<name>, for the driver's one project. */
  datatype FullName = FullName(location: string, name: string)

  datatype Status = Running | Succeeded | Failed

  /** A resize is an update operation. Unreadable stands for operations whose metadata is of another type. */
  datatype Operation =
    | Create(target: FullName, status: Status)
    | Resize(target: FullName, gib: int, status: Status)
    | Unreadable

  datatype Listing<+T> = Listed(value: T) | ListFailed

  predicate IsCreateOf(op: Operation, fn: FullName) {
    op.Create? && op.target == fn
  }

  predicate IsRunningResizeOf(op: Operation, fn: FullName) {
    op.Resize? && op.target == fn && op.status == Running
  }

  /** The first create operation of the instance in the listing. */
  function FirstCreate(ops: seq<Operation>, fn: FullName): (r: Option<Operation>)
    ensures r.Some? ==> r.value in ops && IsCreateOf(r.value, fn)
    ensures r.None? <==> forall op | op in ops :: !IsCreateOf(op, fn)
  {
    if ops == [] then None
    else if IsCreateOf(ops[0], fn) then Some(ops[0])
    else
      var r := FirstCreate(ops[1..], fn);
      assert forall op | op in ops :: op == ops[0] || op in ops[1..];
      r
  }

  /** The log as the backend lists it: in any order. What is not a permutation of the log stands for its own order. */
  function InOrder(ops: seq<Operation>, listing: seq<Operation>): (r: seq<Operation>)
    ensures multiset(r) == multiset(ops)
  {
    if multiset(listing) == multiset(ops) then listing else ops
  }

  predicate ResizeRunning(ops: seq<Operation>, fn: FullName) {
    exists i :: 0 <= i < |ops| && IsRunningResizeOf(ops[i], fn)
  }

  lemma {:induction false} FirstCreateSkips(ops: seq<Operation>, fn: FullName, n: nat)
    requires n <= |ops| && forall j | 0 <= j < n :: !IsCreateOf(ops[j], fn)
    ensures FirstCreate(ops, fn) == FirstCreate(ops[n..], fn)
  {
    if n > 0 {
      FirstCreateSkips(ops[1..], fn, n - 1);
      assert ops[1..][n - 1..] == ops[n..];
    } else {
      assert ops[0..] == ops;
    }
  }

  /**
   The iterator fails when it comes to position brokenAt. The answer is an error exactly when
   the listing breaks before a match, and otherwise the first match of the whole log.
   */
  method GetCreateInstanceOp(ops: seq<Operation>, fn: FullName, brokenAt: nat) returns (r: Listing<Option<Operation>>)
    ensures r.ListFailed? <==> brokenAt <= |ops| && forall j | 0 <= j < brokenAt :: !IsCreateOf(ops[j], fn)
    ensures r.Listed? ==> r.value == FirstCreate(ops, fn)
  {
    var i := 0;
    while true
      invariant 0 <= i <= |ops| && i <= brokenAt
      invariant forall j | 0 <= j < i :: !IsCreateOf(ops[j], fn)
      decreases |ops| - i
    {
      if i == brokenAt {
        return ListFailed;
      }
      FirstCreateSkips(ops, fn, i);
      if i == |ops| {
        return Listed(None);
      }
      if IsCreateOf(ops[i], fn) {
        return Listed(Some(ops[i]));
      }
      i := i + 1;
    }
  }

  method IsOperationInProgress(ops: seq<Operation>, fn: FullName, brokenAt: nat) returns (r: Listing<bool>)
    ensures r.ListFailed? <==> brokenAt <= |ops| && forall j | 0 <= j < brokenAt :: !IsRunningResizeOf(ops[j], fn)
    ensures r.Listed? ==> (r.value <==> ResizeRunning(ops, fn))
  {
    var i := 0;
    while true
      invariant 0 <= i <= |ops| && i <= brokenAt
      invariant forall j | 0 <= j < i :: !IsRunningResizeOf(ops[j], fn)
      decreases |ops| - i
    {
      if i == brokenAt {
        return ListFailed;
      }
      if i == |ops| {
        return Listed(false);
      }
      if IsRunningResizeOf(ops[i], fn) {
        return Listed(true);
      }
      i := i + 1;
    }
  }
}
