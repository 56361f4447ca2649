/**
 NodeStageVolume and NodeUnstageVolume on the mount table (pkg/csi_driver/node.go): a file-system
 name is mounted at most once per node. Calls do not overlap; the lock is per target, so nothing
 is claimed for overlapping calls on different targets.
 */
module Staging {
  import opened Options
  import opened Text
  import opened MountPoints
  import opened ProcMounts
  import opened Unmount

  /** An entry of the mount table. fsname is the name the driver was asked to stage, and None for mounts of others. */
  datatype Mount = Mount(path: string, device: string, fsname: Option<string>)

  /**
   How the calls of one NodeStageVolume turn out: the probe of the target, the listing of mounts, the work
   before the mount (NIC routing, directory), the mount itself, and the calls of unmountPath after a failed mount.
   */
  datatype Calls = Calls(probe: bool, list: bool, prepare: bool, mount: Reply, cleanUp: Replies)

  datatype Response = Staged | InvalidArgument | AlreadyExists | Internal

  predicate IsMounted(mounts: seq<Mount>, path: string) {
    exists i :: 0 <= i < |mounts| && mounts[i].path == path
  }

  /** Every mount makes up one well-formed line of the table; esc are the characters the kernel escapes. */
  predicate Listable(mounts: seq<Mount>, esc: set<char>) {
    forall i | 0 <= i < |mounts| :: Field(mounts[i].device, esc).Some? && Field(mounts[i].path, esc).Some?
  }

  /** The name that is read off a mount. */
  function NameOf(m: Mount, esc: set<char>): string {
    var device := Field(m.device, esc);
    if device.Some? then ExtractFsName(device.value) else ""
  }

  function Names(mounts: seq<Mount>, esc: set<char>): seq<string> {
    seq(|mounts|, i requires 0 <= i < |mounts| => NameOf(mounts[i], esc))
  }

  predicate HasName(mounts: seq<Mount>, fsname: string, esc: set<char>) {
    fsname in Names(mounts, esc)
  }

  function NewMount(target: string, ip: string, fsname: string): Mount {
    Mount(target, Print(ip, fsname), Some(fsname))
  }

  /** What a stage asks for. iam: the volume is mounted when it is published, and staging leaves it alone. */
  datatype Request = Request(target: string, ip: string, fsname: string, iam: bool)

  /** The request gets as far as the mount. */
  predicate Reaches(mounts: seq<Mount>, r: Request, c: Calls, esc: set<char>) {
    && r.ip != "" && r.fsname != "" && !r.iam && r.target != "" && c.probe && !IsMounted(mounts, r.target)
    && c.list && Listable(mounts, esc) && !HasName(mounts, r.fsname, esc) && c.prepare
  }

  /** The mount succeeded, or it failed, is there all the same and survives the clean-up. */
  predicate Left(c: Calls) {
    c.mount.ok || (c.mount.effect && StillMounted(true, c.cleanUp))
  }

  /** The table after a stage. */
  function AfterStage(mounts: seq<Mount>, r: Request, c: Calls, esc: set<char>): seq<Mount> {
    if Reaches(mounts, r, c, esc) && Left(c) then mounts + [NewMount(r.target, r.ip, r.fsname)] else mounts
  }

  /** The mounts that satisfy a condition, in order. */
  function Kept(mounts: seq<Mount>, keep: Mount -> bool): seq<Mount> {
    if mounts == [] then []
    else if keep(mounts[0]) then [mounts[0]] + Kept(mounts[1..], keep)
    else Kept(mounts[1..], keep)
  }

  /** The table without the mounts of a path. */
  function Without(mounts: seq<Mount>, path: string): seq<Mount> {
    Kept(mounts, (m: Mount) => m.path != path)
  }

  /** The table after an unstage. */
  function AfterUnstage(mounts: seq<Mount>, target: string, a: Replies): seq<Mount> {
    if target == "" || StillMounted(IsMounted(mounts, target), a) then mounts else Without(mounts, target)
  }

  lemma {:induction false} WithoutIsGone(mounts: seq<Mount>, path: string)
    ensures !IsMounted(Without(mounts, path), path)
    ensures !IsMounted(mounts, path) ==> Without(mounts, path) == mounts
  {
    if mounts != [] {
      WithoutIsGone(mounts[1..], path);
      if !IsMounted(mounts, path) {
        assert mounts[0].path != path;
        forall i | 0 <= i < |mounts[1..]| ensures mounts[1..][i].path != path {
          assert mounts[1..][i] == mounts[i + 1];
        }
      }
    }
  }

  /** The loop over the names of the listed mounts. */
  method FindName(names: seq<string>, fsname: string) returns (found: bool)
    ensures found <==> fsname in names
  {
    for i := 0 to |names|
      invariant fsname !in names[..i]
    {
      if names[i] == fsname {
        return true;
      }
    }
    return false;
  }

  /** The listing fails when a line of the table is malformed. */
  method HasMountWithSameFsName(mounts: seq<Mount>, fsname: string, esc: set<char>) returns (r: Option<bool>)
    ensures r.Some? <==> Listable(mounts, esc)
    ensures r.Some? ==> (r.value <==> HasName(mounts, fsname, esc))
  {
    if !Listable(mounts, esc) {
      return None;
    }
    var found := FindName(Names(mounts, esc), fsname);
    return Some(found);
  }

  class NodeMounts {
    const esc: set<char>
    var mounts: seq<Mount>

    /** The mounts can be listed, none has the name, and the NICs and the directory are set up. */
    ghost predicate MayMount(table: seq<Mount>, r: Request, c: Calls) {
      && c.list && c.prepare && Listable(table, esc)
      && forall i | 0 <= i < |table| :: Names(table, esc)[i] != r.fsname
    }

    constructor (esc: set<char>)
      ensures this.esc == esc && mounts == []
    {
      this.esc := esc;
      mounts := [];
    }

    /** unmountPath on a path of the table; whether its directory is removed decides success. */
    method UnmountPath(target: string, a: Replies) returns (ok: bool)
      modifies this`mounts
      ensures ok <==> Detached(IsMounted(old(mounts), target), a) && a.remove.ok
      ensures mounts ==
              if StillMounted(IsMounted(old(mounts), target), a) then old(mounts) else Without(old(mounts), target)
    {
      var table := new MountTable(if IsMounted(mounts, target) then {target} else {}, {target});
      ok := table.UnmountPath(target, a);
      if target !in table.mounted {
        mounts := Without(mounts, target);
      }
    }

    /** Success means that the target is mounted, unless the volume is an IAM volume. */
    method Stage(r: Request, c: Calls) returns (response: Response)
      modifies this`mounts
      ensures mounts == AfterStage(old(mounts), r, c, esc)
      ensures response == Staged <==>
                && r.ip != "" && r.fsname != ""
                && (r.iam || (r.target != "" && c.probe && (IsMounted(old(mounts), r.target)
                                                            || (MayMount(old(mounts), r, c) && c.mount.ok))))
      ensures mounts != old(mounts) ==> !r.iam && !IsMounted(old(mounts), r.target) && MayMount(old(mounts), r, c)
      ensures response == Staged && !r.iam ==> IsMounted(mounts, r.target)
    {
      if r.ip == "" || r.fsname == "" {
        return InvalidArgument;
      }
      if r.iam {
        return Staged;
      }
      if r.target == "" {
        return InvalidArgument;
      }
      if !c.probe {
        return Internal;
      }
      if IsMounted(mounts, r.target) {
        return Staged;
      }
      if !c.list {
        return Internal;
      }
      var same := HasMountWithSameFsName(mounts, r.fsname, esc);
      if same.None? {
        return Internal;
      }
      if same.value {
        return AlreadyExists;
      }
      if !c.prepare {
        return Internal;
      }
      ghost var before := mounts;
      if Worked(c.mount) {
        mounts := mounts + [NewMount(r.target, r.ip, r.fsname)];
        assert mounts[|before|].path == r.target;
      }
      if !c.mount.ok {
        UndoneIsBefore(before, NewMount(r.target, r.ip, r.fsname));
        var cleaned := UnmountPath(r.target, c.cleanUp);
        return Internal;
      }
      return Staged;
    }

    /**
     Succeeds exactly when the target was detached and its directory removed. The mount is gone whenever some
     attempt worked, also when the call fails; no other path is touched.
     */
    method Unstage(target: string, a: Replies) returns (ok: bool)
      modifies this`mounts
      ensures ok <==> target != "" && Detached(IsMounted(old(mounts), target), a) && a.remove.ok
      ensures mounts == AfterUnstage(old(mounts), target, a)
      ensures target != "" ==> (IsMounted(mounts, target) <==> StillMounted(IsMounted(old(mounts), target), a))
      ensures Without(mounts, target) == Without(old(mounts), target)
    {
      if target == "" {
        return false;
      }
      WithoutIsGone(mounts, target);
      WithoutIsGone(Without(mounts, target), target);
      ok := UnmountPath(target, a);
    }
  }

  /** Taking away the mount of a path that had none gives back the table. */
  lemma {:induction false} UndoneIsBefore(mounts: seq<Mount>, m: Mount)
    requires !IsMounted(mounts, m.path)
    ensures Without(mounts + [m], m.path) == mounts && Without(mounts, m.path) == mounts
  {
    WithoutIsGone(mounts, m.path);
    if mounts == [] {
      assert mounts + [m] == [m] && [m][1..] == [];
    } else {
      assert mounts[0].path != m.path;
      forall i | 0 <= i < |mounts[1..]| ensures mounts[1..][i].path != m.path {
        assert mounts[1..][i] == mounts[i + 1];
      }
      UndoneIsBefore(mounts[1..], m);
      assert (mounts + [m])[1..] == mounts[1..] + [m];
    }
  }

  // ---- runs ----

  /** Others: mounts that are not the driver's come and go. */
  datatype Event =
    | DoStage(req: Request, calls: Calls)
    | DoUnstage(target: string, replies: Replies)
    | Others(foreign: seq<Mount>)

  function OursOnly(mounts: seq<Mount>): seq<Mount> {
    Kept(mounts, (m: Mount) => m.fsname.Some?)
  }

  function Disowned(mounts: seq<Mount>): seq<Mount> {
    seq(|mounts|, i requires 0 <= i < |mounts| => mounts[i].(fsname := None))
  }

  function Apply(mounts: seq<Mount>, e: Event, esc: set<char>): seq<Mount> {
    match e
    case DoStage(req, calls) => AfterStage(mounts, req, calls, esc)
    case DoUnstage(target, replies) => AfterUnstage(mounts, target, replies)
    case Others(foreign) => OursOnly(mounts) + Disowned(foreign)
  }

  function Run(tr: seq<Event>, esc: set<char>): seq<Mount> {
    if tr == [] then [] else Apply(Run(tr[..|tr| - 1], esc), tr[|tr| - 1], esc)
  }

  /** No two staged mounts have the same file-system name. */
  ghost predicate NamesDiffer(mounts: seq<Mount>) {
    forall i, j | 0 <= i < j < |mounts| && mounts[i].fsname.Some? :: mounts[i].fsname != mounts[j].fsname
  }

  /** The name of a staged mount can be read off its device, or the mount makes every listing fail. */
  predicate Readable(m: Mount, esc: set<char>) {
    m.fsname.Some? && Field(m.device, esc).Some? ==> NameOf(m, esc) == m.fsname.value
  }

  ghost predicate NamesReadable(mounts: seq<Mount>, esc: set<char>) {
    forall m | m in mounts :: Readable(m, esc)
  }

  /**
   The check can read the name off the mount that a stage makes, or the mount makes every listing fail, so that
   nothing more is staged. ProcMounts.ListedShowsName says in characters when.
   */
  predicate Shows(ip: string, fsname: string, esc: set<char>) {
    var device := Field(Print(ip, fsname), esc);
    ip != "" && fsname != "" && device.Some? ==> ExtractFsName(device.value) == fsname
  }

  /** Only the given addresses and names are staged. */
  predicate Asked(e: Event, asks: set<(string, string)>) {
    e.DoStage? ==> (e.req.ip, e.req.fsname) in asks
  }

  predicate AllShow(asks: set<(string, string)>, esc: set<char>) {
    forall a | a in asks :: Shows(a.0, a.1, esc)
  }

  lemma {:induction false} KeptKeepsNames(mounts: seq<Mount>, keep: Mount -> bool)
    ensures forall m | m in Kept(mounts, keep) :: m in mounts && keep(m)
    ensures NamesDiffer(mounts) ==> NamesDiffer(Kept(mounts, keep))
  {
    if mounts != [] {
      KeptKeepsNames(mounts[1..], keep);
      if NamesDiffer(mounts) {
        var kept := Kept(mounts[1..], keep);
        forall i | 0 <= i < |kept| && mounts[0].fsname.Some? ensures mounts[0].fsname != kept[i].fsname {
          assert kept[i] in mounts[1..];
        }
      }
    }
  }

  lemma StageKeepsNames(mounts: seq<Mount>, r: Request, c: Calls, esc: set<char>)
    requires NamesDiffer(mounts) && NamesReadable(mounts, esc) && Shows(r.ip, r.fsname, esc)
    ensures NamesDiffer(AfterStage(mounts, r, c, esc)) && NamesReadable(AfterStage(mounts, r, c, esc), esc)
  {
    if Reaches(mounts, r, c, esc) {
      forall i | 0 <= i < |mounts| ensures mounts[i].fsname != Some(r.fsname) {
        assert Readable(mounts[i], esc) && NameOf(mounts[i], esc) == Names(mounts, esc)[i];
      }
    }
  }

  lemma ApplyKeepsNames(mounts: seq<Mount>, e: Event, esc: set<char>)
    requires NamesDiffer(mounts) && NamesReadable(mounts, esc)
    requires e.DoStage? ==> Shows(e.req.ip, e.req.fsname, esc)
    ensures NamesDiffer(Apply(mounts, e, esc)) && NamesReadable(Apply(mounts, e, esc), esc)
  {
    match e
    case DoStage(req, calls) => StageKeepsNames(mounts, req, calls, esc);
    case DoUnstage(target, _) => KeptKeepsNames(mounts, (m: Mount) => m.path != target);
    case Others(foreign) => KeptKeepsNames(mounts, (m: Mount) => m.fsname.Some?);
  }

  lemma {:induction false} RunKeepsNames(tr: seq<Event>, asks: set<(string, string)>, esc: set<char>)
    requires AllShow(asks, esc) && forall e | e in tr :: Asked(e, asks)
    ensures NamesDiffer(Run(tr, esc)) && NamesReadable(Run(tr, esc), esc)
  {
    if tr != [] {
      RunKeepsNames(tr[..|tr| - 1], asks, esc);
      assert Asked(tr[|tr| - 1], asks);
      ApplyKeepsNames(Run(tr[..|tr| - 1], esc), tr[|tr| - 1], esc);
    }
  }

  /** When the check reads another name off the mount, it lets the same name be staged at any two targets. */
  lemma HiddenNameDefeatsCheck(t: string, u: string, ip: string, fsname: string, esc: set<char>)
    returns (tr: seq<Event>)
    requires t != "" && u != "" && t != u && SpaceFree(t) && !Shows(ip, fsname, esc)
    ensures !NamesDiffer(Run(tr, esc)) && forall e | e in tr :: Asked(e, {(ip, fsname)})
  {
    var m, m' := NewMount(t, ip, fsname), NewMount(u, ip, fsname);
    tr := StageNext([], [], t, ip, fsname, esc);
    PathIsListed(t, esc);
    OneListed(m, fsname, esc);
    tr := StageNext(tr, [m], u, ip, fsname, esc);
    SameNameTwice(m, m');
  }

  lemma PathIsListed(path: string, esc: set<char>)
    requires path != "" && SpaceFree(path)
    ensures Field(path, esc).Some?
  {
    EscapedIsSpaceFree(path, esc);
    PlainIsListed(path, esc);
  }

  lemma StageNext(tr: seq<Event>, mounts: seq<Mount>, target: string, ip: string, fsname: string, esc: set<char>)
    returns (tr': seq<Event>)
    requires target != "" && ip != "" && fsname != "" && Run(tr, esc) == mounts && !IsMounted(mounts, target)
    requires Listable(mounts, esc) && !HasName(mounts, fsname, esc)
    ensures tr' == tr + [StageAt(target, ip, fsname)] && Run(tr', esc) == mounts + [NewMount(target, ip, fsname)]
  {
    tr' := tr + [StageAt(target, ip, fsname)];
    assert tr'[..|tr'| - 1] == tr;
    StagedAt(mounts, target, ip, fsname, esc);
  }

  lemma OneListed(m: Mount, fsname: string, esc: set<char>)
    requires Field(m.device, esc).Some? && Field(m.path, esc).Some? && NameOf(m, esc) != fsname
    ensures Listable([m], esc) && !HasName([m], fsname, esc)
  {
  }

  lemma SameNameTwice(m: Mount, m': Mount)
    requires m.fsname.Some? && m.fsname == m'.fsname
    ensures !NamesDiffer([m] + [m'])
  {
    assert ([m] + [m'])[0].fsname == ([m] + [m'])[1].fsname;
  }

  /** A stage in which every call succeeds. */
  function StageAt(target: string, ip: string, fsname: string): Event {
    var yes := Reply(true, true);
    DoStage(Request(target, ip, fsname, false), Calls(true, true, true, yes, Replies(true, yes, yes, yes, yes)))
  }

  lemma StagedAt(mounts: seq<Mount>, target: string, ip: string, fsname: string, esc: set<char>)
    requires target != "" && ip != "" && fsname != "" && !IsMounted(mounts, target)
    requires Listable(mounts, esc) && !HasName(mounts, fsname, esc)
    ensures Apply(mounts, StageAt(target, ip, fsname), esc) == mounts + [NewMount(target, ip, fsname)]
  {
  }

  /** A slash in the name does that, and so does a character in it that the kernel escapes, such as a blank. */
  lemma UncleanNameDefeatsCheck(t: string, u: string, ip: string, fsname: string, esc: set<char>)
    returns (tr: seq<Event>)
    requires t != "" && u != "" && t != u && SpaceFree(t) && Escaping(esc)
    requires ip != "" && fsname != "" && !Clean(fsname, esc) && Field(Print(ip, fsname), esc).Some?
    ensures !NamesDiffer(Run(tr, esc)) && forall e | e in tr :: Asked(e, {(ip, fsname)})
  {
    ListedShowsName(ip, fsname, esc);
    tr := HiddenNameDefeatsCheck(t, u, ip, fsname, esc);
  }

  /**
   The exact condition on the addresses and names that are asked for: the check can read every name off its
   mount, unless the mount makes every listing fail.
   */
  lemma NamesDifferExactlyWhenShown(asks: set<(string, string)>, esc: set<char>)
    ensures (forall tr: seq<Event> | (forall e | e in tr :: Asked(e, asks)) :: NamesDiffer(Run(tr, esc)))
       <==> AllShow(asks, esc)
  {
    if AllShow(asks, esc) {
      forall tr: seq<Event> | (forall e | e in tr :: Asked(e, asks)) ensures NamesDiffer(Run(tr, esc)) {
        RunKeepsNames(tr, asks, esc);
      }
    } else {
      var a :| a in asks && !Shows(a.0, a.1, esc);
      var tr := HiddenNameDefeatsCheck("/1", "/2", a.0, a.1, esc);
      assert forall e | e in tr :: Asked(e, asks);
    }
  }

  /** A request that is refused, that cannot be listed, or whose name is clean behind an address that stands. */
  predicate Harmless(ip: string, fsname: string, esc: set<char>) {
    || ip == "" || fsname == "" || Field(Print(ip, fsname), esc).None?
    || (Clean(fsname, esc) && Stands(ip, esc))
  }

  /** The same in characters, for every address and name. */
  lemma NamesDifferExactlyWhenClean(asks: set<(string, string)>, esc: set<char>)
    requires Escaping(esc)
    ensures (forall tr: seq<Event> | (forall e | e in tr :: Asked(e, asks)) :: NamesDiffer(Run(tr, esc)))
       <==> (forall a | a in asks :: Harmless(a.0, a.1, esc))
  {
    NamesDifferExactlyWhenShown(asks, esc);
    forall a | a in asks ensures Shows(a.0, a.1, esc) <==> Harmless(a.0, a.1, esc) {
      if a.1 != "" && Field(Print(a.0, a.1), esc).Some? {
        ListedShowsName(a.0, a.1, esc);
      }
    }
  }
}
