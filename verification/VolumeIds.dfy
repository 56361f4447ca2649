/**
 Volume IDs: PROJECT/LOCATION/INSTANCE, with an optional suffix after a colon that lets several
 volumes name one instance (pkg/util/util.go, pkg/csi_driver/volume.go).
 */
module VolumeIds {
  import opened Options
  import opened Text

  datatype Instance = Instance(project: string, location: string, name: string)

  /** The part before the first colon, or all of it. */
  function Cut(id: string): (base: string)
    ensures ':' !in base && base <= id && (base == id || id[|base|] == ':')
  {
    if id == [] || id[0] == ':' then [] else [id[0]] + Cut(id[1..])
  }

  function Parse(id: string): Option<Instance> {
    var tokens := Split(Cut(id), '/');
    if |tokens| != 3 || tokens[0] == "" || tokens[1] == "" || tokens[2] == "" then None
    else Some(Instance(tokens[0], tokens[1], tokens[2]))
  }

  function Print(v: Instance): string {
    v.project + "/" + v.location + "/" + v.name
  }

  predicate Plain(s: string) {
    s != "" && '/' !in s && ':' !in s
  }

  lemma {:induction false} CutAtSuffix(base: string, suffix: string)
    requires ':' !in base && (suffix == "" || suffix[0] == ':')
    ensures Cut(base + suffix) == base
  {
    if base == [] {
      assert base + suffix == suffix;
    } else {
      CutAtSuffix(base[1..], suffix);
      assert (base + suffix)[1..] == base[1..] + suffix;
    }
  }

  lemma PrintIsJoin(v: Instance)
    ensures Print(v) == Join([v.project, v.location, v.name], '/')
  {
    var two, three := [v.location, v.name], [v.project, v.location, v.name];
    assert three[1..] == two && two[1..] == [v.name];
    assert Join(two, '/') == v.location + ['/'] + Join([v.name], '/');
    assert Join(three, '/') == v.project + ['/'] + Join(two, '/');
  }

  /** Printing an accepted ID gives back the ID without its suffix, and its components are plain. */
  lemma PrintOfParse(id: string)
    requires Parse(id).Some?
    ensures Print(Parse(id).value) == Cut(id)
    ensures var v := Parse(id).value; Plain(v.project) && Plain(v.location) && Plain(v.name)
  {
    var v, tokens := Parse(id).value, Split(Cut(id), '/');
    PrintIsJoin(v);
    assert tokens == [v.project, v.location, v.name];
    JoinOfSplit(Cut(id), '/');
    PiecesAreFree(Cut(id), '/');
    assert forall i | 0 <= i < |Print(v)| :: Print(v)[i] != ':';
    assert v.project == Print(v)[..|v.project|];
    assert v.location == Print(v)[|v.project| + 1..|v.project| + 1 + |v.location|];
    assert v.name == Print(v)[|v.project| + |v.location| + 2..];
  }

  /** The printed ID with any suffix parses back to the instance exactly when the components are plain. */
  lemma ParseOfPrint(v: Instance, suffix: string)
    requires suffix == "" || suffix[0] == ':'
    ensures Parse(Print(v) + suffix) == Some(v) <==> Plain(v.project) && Plain(v.location) && Plain(v.name)
  {
    if Parse(Print(v) + suffix) == Some(v) {
      PrintOfParse(Print(v) + suffix);
    }
    if Plain(v.project) && Plain(v.location) && Plain(v.name) {
      CutAtSuffix(Print(v), suffix);
      PrintIsJoin(v);
      SplitOfJoin([v.project, v.location, v.name], '/');
    }
  }
}
