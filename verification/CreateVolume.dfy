/**
 One CreateVolume from request to reply, and what a repeat of it gives
 (pkg/csi_driver/controller.go, pkg/cloud_provider/lustre/lustre.go). Here the call is not
 interrupted; CreateOnce treats the interleavings.
 */
module CreateVolume {
  import opened Options
  import opened Operations
  import Capacity
  import ParameterKeys
  import VolumeIds

  datatype State = Creating | Active | Other

  datatype Instance = Instance(
    project: string, fn: FullName, gib: int, network: string, fsname: string, ip: string, state: State)

  datatype Volume = Volume(id: string, bytes: int, ip: string, fsname: string)

  datatype Backend = Backend(instances: map<FullName, Instance>, ops: seq<Operation>)

  /** The request with its zone, network and file-system name resolved; fsname is empty unless predefined. */
  datatype Request = Request(
    name: string, range: Option<Capacity.CapacityRange>, zone: string, network: string, fsname: string)

  datatype Ending = Succeeds(ip: string) | Fails | TimesOut

  /** How the calls turn out: the two look-ups, the generated name, the acceptance of the creation and its end. */
  datatype Calls = Calls(
    get: bool, list: bool, listing: seq<Operation>, generated: Option<string>, accepted: bool, ending: Ending)

  datatype Reply =
    | Created(volume: Volume)
    | InvalidArgument
    | AlreadyExists
    | NotReady
    | CreationFailed
    | CallFailed

  datatype Field = Name | Project | Location | Size | Network

  function NameOf(req: Request): FullName {
    FullName(req.zone, ParameterKeys.ToLower(req.name))
  }

  /** The instance a valid request asks for. */
  function Wanted(project: string, req: Request): Option<Instance> {
    var bytes := Capacity.RequestCapacity(req.range);
    if req.name == "" || bytes.None? then None
    else Some(Instance(project, NameOf(req), Capacity.BytesToGib(bytes.value), req.network, req.fsname, "", Creating))
  }

  predicate Differs(a: Instance, b: Instance, f: Field) {
    match f
    case Name => a.fn.name != b.fn.name
    case Project => a.project != b.project
    case Location => a.fn.location != b.fn.location
    case Size => a.gib != b.gib
    case Network => a.network != b.network
  }

  predicate Distinct(fields: seq<Field>) {
    forall i, j | 0 <= i < j < |fields| :: fields[i] != fields[j]
  }

  /** One comparison: a field that differs is put on the list. */
  method Compare(a: Instance, b: Instance, f: Field, before: seq<Field>) returns (after: seq<Field>)
    requires f !in before
    ensures forall g :: g in after <==> g in before || (g == f && Differs(a, b, f))
    ensures Distinct(before) ==> Distinct(after)
  {
    after := if Differs(a, b, f) then before + [f] else before;
  }

  /** The list of mismatches names exactly the fields that differ, each once. */
  method CompareInstances(a: Instance, b: Instance) returns (mismatches: seq<Field>)
    ensures forall f :: f in mismatches <==> Differs(a, b, f)
    ensures Distinct(mismatches)
    ensures mismatches == [] <==> Matches(a, b)
  {
    mismatches := Compare(a, b, Name, []);
    mismatches := Compare(a, b, Project, mismatches);
    mismatches := Compare(a, b, Location, mismatches);
    mismatches := Compare(a, b, Size, mismatches);
    mismatches := Compare(a, b, Network, mismatches);
    NoneDiffers(a, b, mismatches);
  }

  lemma NoneDiffers(a: Instance, b: Instance, mismatches: seq<Field>)
    requires forall f :: f in mismatches <==> Differs(a, b, f)
    ensures mismatches == [] <==> Matches(a, b)
  {
    if mismatches == [] {
      assert !Differs(a, b, Name) && !Differs(a, b, Project) && !Differs(a, b, Location);
      assert !Differs(a, b, Size) && !Differs(a, b, Network);
    } else {
      assert mismatches[0] in mismatches;
    }
  }

  predicate Matches(a: Instance, b: Instance) {
    a.project == b.project && a.fn == b.fn && a.gib == b.gib && a.network == b.network
  }

  function VolumeOf(i: Instance): Volume {
    Volume(VolumeIds.Print(VolumeIds.Instance(i.project, i.fn.location, i.fn.name)),
           Capacity.GibToBytes(i.gib), i.ip, i.fsname)
  }

  /** The answer for an instance that is there already. */
  function Existing(wanted: Instance, found: Instance): Reply {
    if !Matches(wanted, found) then AlreadyExists
    else if found.state != Active then NotReady
    else Created(VolumeOf(found))
  }

  /** The backend stores what it was asked for, and adds an address when the creation succeeds. */
  function Stored(b: Backend, wanted: Instance, ending: Ending): Backend {
    match ending
    case Succeeds(ip) =>
      Backend(b.instances[wanted.fn := wanted.(ip := ip, state := Active)], b.ops + [Create(wanted.fn, Succeeded)])
    case Fails => Backend(b.instances, b.ops + [Create(wanted.fn, Failed)])
    case TimesOut => Backend(b.instances[wanted.fn := wanted], b.ops + [Create(wanted.fn, Running)])
  }

  /** The backend after the call and the reply. */
  function Outcome(project: string, b: Backend, req: Request, c: Calls): (Backend, Reply) {
    var wanted := Wanted(project, req);
    if wanted.None? then (b, InvalidArgument)
    else if !c.get then (b, CallFailed)
    else if wanted.value.fn in b.instances then (b, Existing(wanted.value, b.instances[wanted.value.fn]))
    else
      var op := FirstCreate(InOrder(b.ops, c.listing), wanted.value.fn);
      if !c.list then (b, CallFailed)
      else if op.Some? && op.value.status == Failed then (b, CreationFailed)
      else if (req.fsname == "" && c.generated.None?) || !c.accepted then (b, CallFailed)
      else
        var named := if req.fsname == "" then wanted.value.(fsname := c.generated.value) else wanted.value;
        var b' := Stored(b, named, c.ending);
        (b', if c.ending.Succeeds? then Created(VolumeOf(b'.instances[named.fn])) else CallFailed)
  }

  /** Every instance is filed under its own full name, in the driver's project. */
  ghost predicate Filed(project: string, b: Backend) {
    forall fn | fn in b.instances :: b.instances[fn].fn == fn && b.instances[fn].project == project
  }

  class Controller {
    const project: string
    var backend: Backend

    constructor (project: string, backend: Backend)
      ensures this.project == project && this.backend == backend
    {
      this.project := project;
      this.backend := backend;
    }

    method CreateVolume(req: Request, c: Calls) returns (reply: Reply)
      modifies this
      ensures (backend, reply) == Outcome(project, old(backend), req, c)
      ensures old(Filed(project, backend)) ==> Filed(project, backend)
    {
      var wanted := Wanted(project, req);
      if wanted.None? {
        return InvalidArgument;
      }
      if !c.get {
        return CallFailed;
      }
      if wanted.value.fn in backend.instances {
        var found := backend.instances[wanted.value.fn];
        var mismatches := CompareInstances(wanted.value, found);
        if mismatches != [] {
          return AlreadyExists;
        }
        return if found.state != Active then NotReady else Created(VolumeOf(found));
      }
      if !c.list {
        return CallFailed;
      }
      var listing := InOrder(backend.ops, c.listing);
      var op := GetCreateInstanceOp(listing, wanted.value.fn, |listing| + 1);
      if op.value.Some? && op.value.value.status == Failed {
        return CreationFailed;
      }
      if (req.fsname == "" && c.generated.None?) || !c.accepted {
        return CallFailed;
      }
      var named := if req.fsname == "" then wanted.value.(fsname := c.generated.value) else wanted.value;
      backend := Stored(backend, named, c.ending);
      return if c.ending.Succeeds? then Created(VolumeOf(backend.instances[named.fn])) else CallFailed;
    }
  }

  /** The volume ID in the reply leads back to the instance, with any suffix, when its parts are plain. */
  lemma VolumeIdLeadsBack(i: Instance, suffix: string)
    requires suffix == "" || suffix[0] == ':'
    requires VolumeIds.Plain(i.project) && VolumeIds.Plain(i.fn.location) && VolumeIds.Plain(i.fn.name)
    ensures var v := VolumeIds.Parse(VolumeOf(i).id + suffix);
            v.Some? && v.value.project == i.project && FullName(v.value.location, v.value.name) == i.fn
  {
    VolumeIds.ParseOfPrint(VolumeIds.Instance(i.project, i.fn.location, i.fn.name), suffix);
  }

  // ---- runs ----

  /**
   Calls one after the other, and a backend that goes on in between: a creation whose call timed out
   completes or fails, and an instance that was created leaves the active state and comes back.
   */
  datatype Event =
    | Call(req: Request, calls: Calls)
    | Complete(fn: FullName, ip: string)
    | Fail(fn: FullName)
    | Turn(fn: FullName, state: State)

  datatype Answer = Answer(req: Request, reply: Reply)

  datatype World = World(backend: Backend, answers: seq<Answer>)

  predicate IsCreating(b: Backend, fn: FullName) {
    fn in b.instances && b.instances[fn].state == Creating
  }

  /** The running creations of the instance come to an end. */
  function Ended(ops: seq<Operation>, fn: FullName, status: Status): seq<Operation> {
    seq(|ops|, i requires 0 <= i < |ops| => if ops[i] == Create(fn, Running) then Create(fn, status) else ops[i])
  }

  /** What the backend does by itself. */
  function Turned(b: Backend, e: Event): Backend {
    match e
    case Call(_, _) => b
    case Complete(fn, ip) =>
      if !IsCreating(b, fn) then b
      else Backend(b.instances[fn := b.instances[fn].(ip := ip, state := Active)], Ended(b.ops, fn, Succeeded))
    case Fail(fn) =>
      if !IsCreating(b, fn) then b else Backend(b.instances - {fn}, Ended(b.ops, fn, Failed))
    case Turn(fn, state) =>
      if fn !in b.instances || IsCreating(b, fn) || state == Creating then b
      else b.(instances := b.instances[fn := b.instances[fn].(state := state)])
  }

  function Apply(project: string, w: World, e: Event): World {
    if e.Call? then
      var (b, reply) := Outcome(project, w.backend, e.req, e.calls);
      World(b, w.answers + [Answer(e.req, reply)])
    else w.(backend := Turned(w.backend, e))
  }

  function Run(project: string, start: Backend, tr: seq<Event>): World {
    if tr == [] then World(start, []) else Apply(project, Run(project, start, tr[..|tr| - 1]), tr[|tr| - 1])
  }

  /** A creation on record that did not fail has its instance, and one that failed has none. */
  predicate OpTidy(b: Backend, op: Operation) {
    op.Create? ==>
      if op.target in b.instances then op.status != Failed && (IsCreating(b, op.target) ==> op.status == Running)
      else op.status == Failed
  }

  ghost predicate Tidy(project: string, b: Backend) {
    Filed(project, b) && forall i | 0 <= i < |b.ops| :: OpTidy(b, b.ops[i])
  }

  /** The instance that was answered for is there, as it was described. */
  predicate Stands(project: string, b: Backend, a: Answer) {
    a.reply.Created? ==>
      var fn := NameOf(a.req);
      && Wanted(project, a.req).Some? && fn in b.instances && !IsCreating(b, fn)
      && Matches(Wanted(project, a.req).value, b.instances[fn]) && a.reply.volume == VolumeOf(b.instances[fn])
  }

  ghost predicate Ok(project: string, w: World) {
    Tidy(project, w.backend) && forall i | 0 <= i < |w.answers| :: Stands(project, w.backend, w.answers[i])
  }

  /** With no instance there, the listing tells in any order whether a creation was asked for, and then it failed. */
  lemma ListingDecides(project: string, b: Backend, fn: FullName, listing: seq<Operation>)
    requires Tidy(project, b) && fn !in b.instances && multiset(listing) == multiset(b.ops)
    ensures var op := FirstCreate(listing, fn);
            if op.Some? then op.value.status == Failed else forall i | 0 <= i < |b.ops| :: !IsCreateOf(b.ops[i], fn)
  {
    var op := FirstCreate(listing, fn);
    if op.Some? {
      assert op.value in multiset(b.ops);
      var i :| 0 <= i < |b.ops| && b.ops[i] == op.value;
      assert OpTidy(b, b.ops[i]);
    } else {
      forall i | 0 <= i < |b.ops| ensures !IsCreateOf(b.ops[i], fn) {
        assert b.ops[i] in multiset(listing);
      }
    }
  }

  /** A creation of a tidy backend is accepted only for a name with no instance and no creation on record. */
  lemma AcceptedIsNew(project: string, b: Backend, req: Request, c: Calls)
    requires Tidy(project, b) && Outcome(project, b, req, c).0 != b
    ensures NameOf(req) !in b.instances && forall i | 0 <= i < |b.ops| :: !IsCreateOf(b.ops[i], NameOf(req))
  {
    ListingDecides(project, b, NameOf(req), InOrder(b.ops, c.listing));
  }

  lemma StoredKeepsTidy(project: string, b: Backend, wanted: Instance, ending: Ending)
    requires Tidy(project, b) && wanted.project == project && wanted.state == Creating && wanted.fn !in b.instances
    requires forall i | 0 <= i < |b.ops| :: !IsCreateOf(b.ops[i], wanted.fn)
    ensures Tidy(project, Stored(b, wanted, ending))
  {
    var b' := Stored(b, wanted, ending);
    forall i | 0 <= i < |b'.ops| ensures OpTidy(b', b'.ops[i]) {
      assert i < |b.ops| ==> OpTidy(b, b.ops[i]);
    }
  }

  /** A call leaves the backend as it is, or stores the instance that is wanted. */
  lemma CallStores(project: string, b: Backend, req: Request, c: Calls)
    requires Outcome(project, b, req, c).0 != b
    ensures Wanted(project, req).Some? &&
            exists fsname :: Outcome(project, b, req, c).0 ==
              Stored(b, Wanted(project, req).value.(fsname := fsname), c.ending)
  {
    var wanted := Wanted(project, req).value;
    var fsname := if req.fsname == "" then c.generated.value else req.fsname;
    assert Outcome(project, b, req, c).0 == Stored(b, wanted.(fsname := fsname), c.ending);
  }

  lemma CallKeepsTidy(project: string, b: Backend, req: Request, c: Calls)
    requires Tidy(project, b)
    ensures Tidy(project, Outcome(project, b, req, c).0)
  {
    var b' := Outcome(project, b, req, c).0;
    if b' != b {
      AcceptedIsNew(project, b, req, c);
      CallStores(project, b, req, c);
      var fsname :| b' == Stored(b, Wanted(project, req).value.(fsname := fsname), c.ending);
      StoredKeepsTidy(project, b, Wanted(project, req).value.(fsname := fsname), c.ending);
    }
  }

  lemma TurnedKeepsTidy(project: string, b: Backend, e: Event)
    requires Tidy(project, b)
    ensures Tidy(project, Turned(b, e))
  {
    var b' := Turned(b, e);
    forall i | 0 <= i < |b'.ops| ensures OpTidy(b', b'.ops[i]) {
      assert OpTidy(b, b.ops[i]);
    }
  }

  /** A volume that was created is there, active, and answers for its name. */
  lemma CreatedIsThere(project: string, b: Backend, req: Request, c: Calls)
    requires Filed(project, b) && Outcome(project, b, req, c).1.Created?
    ensures Stands(project, Outcome(project, b, req, c).0, Answer(req, Outcome(project, b, req, c).1))
  {
  }

  /** An instance that is there stays as it is through calls, and through the backend's own steps once it is created. */
  lemma ApplyKeepsStands(project: string, w: World, e: Event, a: Answer)
    requires Tidy(project, w.backend) && Stands(project, w.backend, a)
    ensures Stands(project, Apply(project, w, e).backend, a)
  {
    if e.Call? && Outcome(project, w.backend, e.req, e.calls).0 != w.backend {
      AcceptedIsNew(project, w.backend, e.req, e.calls);
    }
  }

  lemma ApplyKeepsOk(project: string, w: World, e: Event)
    requires Ok(project, w)
    ensures Ok(project, Apply(project, w, e))
  {
    var w' := Apply(project, w, e);
    if e.Call? {
      CallKeepsTidy(project, w.backend, e.req, e.calls);
    } else {
      TurnedKeepsTidy(project, w.backend, e);
    }
    forall i | 0 <= i < |w'.answers| ensures Stands(project, w'.backend, w'.answers[i]) {
      if i < |w.answers| {
        ApplyKeepsStands(project, w, e, w.answers[i]);
      } else if w'.answers[i].reply.Created? {
        CreatedIsThere(project, w.backend, e.req, e.calls);
      }
    }
  }

  lemma {:induction false} RunKeepsOk(project: string, start: Backend, tr: seq<Event>)
    requires Tidy(project, start)
    ensures Ok(project, Run(project, start, tr))
  {
    if tr != [] {
      RunKeepsOk(project, start, tr[..|tr| - 1]);
      ApplyKeepsOk(project, Run(project, start, tr[..|tr| - 1]), tr[|tr| - 1]);
    }
  }

  // ---- idempotence ----

  /** In any run all successful replies for one full name carry the identical volume. */
  lemma RepliesAgree(project: string, start: Backend, tr: seq<Event>, i: nat, j: nat)
    requires Tidy(project, start)
    requires var answers := Run(project, start, tr).answers;
             && i < |answers| && j < |answers| && NameOf(answers[i].req) == NameOf(answers[j].req)
             && answers[i].reply.Created? && answers[j].reply.Created?
    ensures var answers := Run(project, start, tr).answers; answers[i].reply == answers[j].reply
  {
    RunKeepsOk(project, start, tr);
    var w := Run(project, start, tr);
    assert Stands(project, w.backend, w.answers[i]) && Stands(project, w.backend, w.answers[j]);
  }

  predicate Agrees(a: Instance, b: Instance) {
    a.gib == b.gib && a.network == b.network
  }

  /**
   At any later point of a run, a valid request for the full name of a volume that was created changes nothing in
   the backend. It gets the identical volume when it agrees in GiB and network and the instance is active,
   whatever else it asks for, and is refused when it does not agree.
   */
  lemma RepeatIsIdempotent(project: string, start: Backend, tr: seq<Event>, i: nat, again: Request, c: Calls)
    requires Tidy(project, start) && Wanted(project, again).Some? && c.get
    requires var answers := Run(project, start, tr).answers;
             i < |answers| && answers[i].reply.Created? && NameOf(answers[i].req) == NameOf(again)
    ensures var (b, first) := (Run(project, start, tr).backend, Run(project, start, tr).answers[i]);
            && NameOf(again) in b.instances && Wanted(project, first.req).Some?
            && Outcome(project, b, again, c) ==
                 (b, if !Agrees(Wanted(project, again).value, Wanted(project, first.req).value) then AlreadyExists
                     else if b.instances[NameOf(again)].state != Active then NotReady else first.reply)
  {
    RunKeepsOk(project, start, tr);
    var w := Run(project, start, tr);
    assert Stands(project, w.backend, w.answers[i]);
  }

  /** The creation of a name has left its mark: the instance as it was asked for, or a failure. */
  predicate Settled(b: Backend, asked: Instance) {
    || Create(asked.fn, Failed) in b.ops
    || (asked.fn in b.instances && b.instances[asked.fn].(ip := asked.ip, state := asked.state) == asked)
  }

  lemma FailureStays(project: string, b: Backend, e: Event, fn: FullName)
    requires Create(fn, Failed) in b.ops
    ensures Create(fn, Failed) in Apply(project, World(b, []), e).backend.ops
  {
    var b' := Apply(project, World(b, []), e).backend;
    var i :| 0 <= i < |b.ops| && b.ops[i] == Create(fn, Failed);
    assert b'.ops[i] == b.ops[i];
  }

  lemma ApplyKeepsSettled(project: string, w: World, e: Event, asked: Instance, n: nat)
    requires Tidy(project, w.backend) && Settled(w.backend, asked)
    requires n < |w.backend.ops| && IsCreateOf(w.backend.ops[n], asked.fn)
    ensures var b := Apply(project, w, e).backend;
            Settled(b, asked) && n < |b.ops| && IsCreateOf(b.ops[n], asked.fn)
  {
    var b, b' := w.backend, Apply(project, w, e).backend;
    assert OpTidy(b, b.ops[n]);
    if Create(asked.fn, Failed) in b.ops {
      FailureStays(project, b, e, asked.fn);
    } else if e == Fail(asked.fn) && IsCreating(b, asked.fn) {
      assert b'.ops[n] == Create(asked.fn, Failed);
    } else if e.Call? && b' != b {
      AcceptedIsNew(project, b, e.req, e.calls);
    }
  }

  lemma {:induction false} RunKeepsSettled(project: string, start: Backend, tr: seq<Event>, asked: Instance, n: nat)
    requires Tidy(project, start) && Settled(start, asked) && n < |start.ops| && IsCreateOf(start.ops[n], asked.fn)
    ensures var b := Run(project, start, tr).backend;
            Settled(b, asked) && n < |b.ops| && IsCreateOf(b.ops[n], asked.fn)
  {
    if tr != [] {
      RunKeepsSettled(project, start, tr[..|tr| - 1], asked, n);
      RunKeepsOk(project, start, tr[..|tr| - 1]);
      ApplyKeepsSettled(project, Run(project, start, tr[..|tr| - 1]), tr[|tr| - 1], asked, n);
    }
  }

  /**
   A creation whose call timed out is found by a later one: whatever happens in between, once the instance is
   active a valid request for the name changes nothing and, when it agrees, is answered with what was asked for then.
   */
  lemma TimedOutIsFound(project: string, b: Backend, req: Request, c: Calls, tr: seq<Event>, again: Request, c': Calls)
    requires Tidy(project, b) && c.ending == TimesOut && Outcome(project, b, req, c).0 != b
    requires Wanted(project, again).Some? && NameOf(again) == NameOf(req) && c'.get
    requires var b1 := Run(project, Outcome(project, b, req, c).0, tr).backend;
             NameOf(req) in b1.instances && b1.instances[NameOf(req)].state == Active
    ensures var asked := Outcome(project, b, req, c).0.instances[NameOf(req)];
            var b1 := Run(project, Outcome(project, b, req, c).0, tr).backend;
            Outcome(project, b1, again, c') ==
              (b1, if Agrees(Wanted(project, again).value, asked)
                   then Created(VolumeOf(asked.(ip := b1.instances[NameOf(req)].ip))) else AlreadyExists)
  {
    var b0 := Outcome(project, b, req, c).0;
    var b1, asked := Run(project, b0, tr).backend, b0.instances[NameOf(req)];
    CallKeepsTidy(project, b, req, c);
    RunKeepsSettled(project, b0, tr, asked, |b.ops|);
    RunKeepsOk(project, b0, tr);
    if Create(asked.fn, Failed) in b1.ops {
      FailedHasNone(project, b1, asked.fn);
    }
  }

  lemma FailedHasNone(project: string, b: Backend, fn: FullName)
    requires Tidy(project, b) && Create(fn, Failed) in b.ops
    ensures fn !in b.instances
  {
    var i :| 0 <= i < |b.ops| && b.ops[i] == Create(fn, Failed);
    assert OpTidy(b, b.ops[i]);
  }

  lemma FailedRefuses(project: string, b: Backend, again: Request, c: Calls)
    requires Tidy(project, b) && Create(NameOf(again), Failed) in b.ops
    ensures Outcome(project, b, again, c).0 == b && !Outcome(project, b, again, c).1.Created?
  {
    var fn, listing := NameOf(again), InOrder(b.ops, c.listing);
    FailedHasNone(project, b, fn);
    ListingDecides(project, b, fn, listing);
    var i :| 0 <= i < |b.ops| && b.ops[i] == Create(fn, Failed);
    assert IsCreateOf(b.ops[i], fn);
  }

  /** Once a creation of the name has failed, no later request for it in a run creates anything or succeeds. */
  lemma {:induction false} FailedCreationIsFinal(
    project: string, start: Backend, tr: seq<Event>, again: Request, c: Calls)
    requires Tidy(project, start) && Create(NameOf(again), Failed) in start.ops
    ensures var b := Run(project, start, tr).backend;
            && Create(NameOf(again), Failed) in b.ops
            && Outcome(project, b, again, c).0 == b && !Outcome(project, b, again, c).1.Created?
  {
    var fn := NameOf(again);
    if tr != [] {
      FailedCreationIsFinal(project, start, tr[..|tr| - 1], again, c);
      FailureStays(project, Run(project, start, tr[..|tr| - 1]).backend, tr[|tr| - 1], fn);
    }
    RunKeepsOk(project, start, tr);
    FailedRefuses(project, Run(project, start, tr).backend, again, c);
  }
}
