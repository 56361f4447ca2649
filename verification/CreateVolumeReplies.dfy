/**
 CreateVolume in the terms of the request and of the calls alone: what is answered when, what is stored, and how
 the size and the network of a volume relate to what was asked for.
 */
module CreateVolumeReplies {
  import opened Options
  import opened Operations
  import opened CreateVolume
  import Capacity
  import ParameterKeys

  function FullNameOf(req: Request): FullName {
    FullName(req.zone, ParameterKeys.ToLower(req.name))
  }

  predicate Valid(req: Request) {
    req.name != "" && Capacity.RequestCapacity(req.range).Some?
  }

  /** The size that is asked for, in bytes. */
  function BytesOf(req: Request): int
    requires Valid(req)
  {
    Capacity.RequestCapacity(req.range).value
  }

  /** The instance has the size that was asked for, rounded down to whole GiB, and the network. */
  predicate Fits(project: string, req: Request, i: Instance)
    requires Valid(req)
  {
    && i.project == project && i.fn == FullNameOf(req) && i.network == req.network
    && i.gib * Capacity.GIB <= BytesOf(req) < (i.gib + 1) * Capacity.GIB
  }

  predicate Describes(v: Volume, i: Instance) {
    && v.id == i.project + "/" + i.fn.location + "/" + i.fn.name
    && v.bytes == Capacity.GibToBytes(i.gib) && v.ip == i.ip && v.fsname == i.fsname
  }

  /** The first creation of the name that is listed has failed. */
  predicate FailureListed(b: Backend, req: Request, c: Calls) {
    var op := FirstCreate(InOrder(b.ops, c.listing), FullNameOf(req));
    op.Some? && op.value.status == Failed
  }

  /** A creation is sent and accepted. */
  predicate Accepts(b: Backend, req: Request, c: Calls) {
    && Valid(req) && c.get && FullNameOf(req) !in b.instances && c.list && !FailureListed(b, req, c)
    && (req.fsname != "" || c.generated.Some?) && c.accepted
  }

  lemma WantedFits(project: string, req: Request)
    requires Valid(req)
    ensures Wanted(project, req).Some? && Fits(project, req, Wanted(project, req).value)
    ensures Wanted(project, req).value.fn == FullNameOf(req) && 0 <= Wanted(project, req).value.gib < Capacity.MAX_GIB
    ensures forall i: Instance :: Fits(project, req, i) <==> Matches(Wanted(project, req).value, i)
  {
    var bytes := Capacity.RequestCapacity(req.range).value;
    if req.range.Some? {
      Capacity.RequestCapacityMeetsRange(req.range.value);
    }
    Capacity.RoundingDown(bytes);
    Capacity.NoWrap(Capacity.BytesToGib(bytes));
  }

  /** The answer for an instance that is there: the volume if it fits and is active, and otherwise why not. */
  lemma ExistingIsAnswered(project: string, b: Backend, req: Request, c: Calls)
    requires Valid(req) && c.get && FullNameOf(req) in b.instances
    ensures var (b', reply) := Outcome(project, b, req, c);
            var found := b.instances[FullNameOf(req)];
            && b' == b
            && (reply == AlreadyExists <==> !Fits(project, req, found))
            && (reply == NotReady <==> Fits(project, req, found) && found.state != Active)
            && (reply.Created? <==> Fits(project, req, found) && found.state == Active)
            && (reply.Created? ==> Describes(reply.volume, found))
  {
    WantedFits(project, req);
  }

  /** A request that is not valid, and a call that fails before a creation is accepted, change nothing. */
  lemma RefusalChangesNothing(project: string, b: Backend, req: Request, c: Calls)
    requires !(Valid(req) && c.get && FullNameOf(req) in b.instances) && !Accepts(b, req, c)
    ensures Outcome(project, b, req, c) ==
              (b, if !Valid(req) then InvalidArgument
                  else if c.get && c.list && FailureListed(b, req, c) then CreationFailed else CallFailed)
  {
    if Valid(req) {
      WantedFits(project, req);
    }
  }

  /** A creation that is accepted stores one instance that fits, with the name it is to have, and is on record. */
  lemma AcceptedIsStored(project: string, b: Backend, req: Request, c: Calls)
    requires Accepts(b, req, c) && !c.ending.Fails?
    ensures var (b', reply) := Outcome(project, b, req, c);
            var fn := FullNameOf(req);
            && fn in b'.instances && b'.instances - {fn} == b.instances - {fn}
            && Fits(project, req, b'.instances[fn])
            && b'.instances[fn].fsname == (if req.fsname != "" then req.fsname else c.generated.value)
            && b'.instances[fn].state == (if c.ending.Succeeds? then Active else Creating)
            && (c.ending.Succeeds? ==> b'.instances[fn].ip == c.ending.ip)
            && b'.ops == b.ops + [Create(fn, if c.ending.Succeeds? then Succeeded else Running)]
            && (if c.ending.Succeeds? then reply.Created? && Describes(reply.volume, b'.instances[fn])
                else reply == CallFailed)
  {
    WantedFits(project, req);
  }

  lemma AcceptedMayFail(project: string, b: Backend, req: Request, c: Calls)
    requires Accepts(b, req, c) && c.ending.Fails?
    ensures Outcome(project, b, req, c) ==
              (Backend(b.instances, b.ops + [Create(FullNameOf(req), Failed)]), CallFailed)
  {
    WantedFits(project, req);
  }

  /** The volume is less than one GiB below the request, and never above it. */
  predicate Within(v: Volume, bytes: int) {
    v.bytes <= bytes < v.bytes + Capacity.GIB
  }

  /** A new volume, when every call succeeds, is what was asked for. */
  lemma CreatesWhatIsAsked(project: string, b: Backend, req: Request, c: Calls)
    requires Valid(req) && c.get && c.list && c.accepted && c.ending.Succeeds?
    requires req.fsname != "" || c.generated.Some?
    requires FullNameOf(req) !in b.instances && forall op | op in b.ops :: !IsCreateOf(op, FullNameOf(req))
    ensures var (b', reply) := Outcome(project, b, req, c);
            && reply.Created? && Within(reply.volume, BytesOf(req)) && reply.volume.ip == c.ending.ip
            && reply.volume.fsname == (if req.fsname != "" then req.fsname else c.generated.value)
            && FullNameOf(req) in b'.instances && b'.instances[FullNameOf(req)].network == req.network
  {
    NoCreationNoFailure(b, req, c);
    AcceptedIsStored(project, b, req, c);
    DescribedIsWithin(project, req, Outcome(project, b, req, c).0.instances[FullNameOf(req)],
                      Outcome(project, b, req, c).1.volume);
  }

  lemma NoCreationNoFailure(b: Backend, req: Request, c: Calls)
    requires forall op | op in b.ops :: !IsCreateOf(op, FullNameOf(req))
    ensures !FailureListed(b, req, c)
  {
    var listing := InOrder(b.ops, c.listing);
    forall op | op in listing ensures !IsCreateOf(op, FullNameOf(req)) {
      assert op in multiset(b.ops);
    }
  }

  lemma DescribedIsWithin(project: string, req: Request, i: Instance, v: Volume)
    requires Valid(req) && Fits(project, req, i) && Describes(v, i)
    ensures Within(v, BytesOf(req))
  {
    WantedFits(project, req);
    Capacity.NoWrap(i.gib);
  }

  // ---- runs ----

  lemma AnswerFits(project: string, start: Backend, tr: seq<Event>, i: nat)
    requires Tidy(project, start)
    requires var answers := Run(project, start, tr).answers; i < |answers| && answers[i].reply.Created?
    ensures var (b, a) := (Run(project, start, tr).backend, Run(project, start, tr).answers[i]);
            && Valid(a.req) && FullNameOf(a.req) in b.instances && Fits(project, a.req, b.instances[FullNameOf(a.req)])
            && Describes(a.reply.volume, b.instances[FullNameOf(a.req)])
  {
    RunKeepsOk(project, start, tr);
    var w := Run(project, start, tr);
    assert Stands(project, w.backend, w.answers[i]);
    WantedFits(project, w.answers[i].req);
  }

  /** In every run a volume that was answered is within one GiB below its own request. */
  lemma AnswersAreWithinRequest(project: string, start: Backend, tr: seq<Event>, i: nat)
    requires Tidy(project, start)
    requires var answers := Run(project, start, tr).answers; i < |answers| && answers[i].reply.Created?
    ensures var a := Run(project, start, tr).answers[i];
            Valid(a.req) && Within(a.reply.volume, BytesOf(a.req))
  {
    AnswerFits(project, start, tr, i);
    var w := Run(project, start, tr);
    var a := w.answers[i];
    DescribedIsWithin(project, a.req, w.backend.instances[FullNameOf(a.req)], a.reply.volume);
  }

  /** The requests agree in whole GiB and in network. */
  predicate Agree(a: Request, b: Request) {
    && Valid(a) && Valid(b) && a.network == b.network
    && BytesOf(a) - BytesOf(a) % Capacity.GIB == BytesOf(b) - BytesOf(b) % Capacity.GIB
  }

  lemma FittingRequestsAgree(project: string, a: Request, b: Request, i: Instance)
    requires Valid(a) && Valid(b) && Fits(project, a, i) && Fits(project, b, i)
    ensures Agree(a, b)
  {
    SameWholeGib(i.gib, BytesOf(a), BytesOf(b));
  }

  /** In every run two requests for one full name that were both answered agree in whole GiB and in network. */
  lemma AnsweredRequestsAgree(project: string, start: Backend, tr: seq<Event>, i: nat, j: nat)
    requires Tidy(project, start)
    requires var answers := Run(project, start, tr).answers;
             && i < |answers| && j < |answers| && FullNameOf(answers[i].req) == FullNameOf(answers[j].req)
             && answers[i].reply.Created? && answers[j].reply.Created?
    ensures Agree(Run(project, start, tr).answers[i].req, Run(project, start, tr).answers[j].req)
  {
    AnswerFits(project, start, tr, i);
    AnswerFits(project, start, tr, j);
    var w := Run(project, start, tr);
    var (a, b) := (w.answers[i].req, w.answers[j].req);
    FittingRequestsAgree(project, a, b, w.backend.instances[FullNameOf(a)]);
  }

  lemma SameWholeGib(gib: int, x: int, y: int)
    requires gib * Capacity.GIB <= x < (gib + 1) * Capacity.GIB && gib * Capacity.GIB <= y < (gib + 1) * Capacity.GIB
    ensures x - x % Capacity.GIB == y - y % Capacity.GIB
  {
  }
}
