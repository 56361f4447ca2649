/**
 StorageClass parameters and volume attributes: keys are compared without case, dashes and
 underscores (pkg/csi_driver/utils.go). The input is a Go map, so the loop may see its keys in
 any order; the loop below picks the next key arbitrarily.
 */
module ParameterKeys {
  datatype Result =
    | Ok(processed: map<string, string>)
    | Unsupported(keys: seq<string>)
    | Duplicate(keys: seq<string>)

  const CSI_PREFIX := "csi.storage.k8s.io"
  const STORAGE_PREFIX := "storage.kubernetes.io"

  /** strings.ReplaceAll(s, c, "") */
  function Remove(s: string, c: char): string {
    if s == [] then [] else (if s[0] == c then [] else [s[0]]) + Remove(s[1..], c)
  }

  function Lower(c: char): char {
    if 'A' <= c <= 'Z' then (c as int + 32) as char else c
  }

  function ToLower(s: string): string {
    seq(|s|, i requires 0 <= i < |s| => Lower(s[i]))
  }

  function Normalize(key: string): string {
    ToLower(Remove(Remove(key, '-'), '_'))
  }

  /** Supported, or added by Kubernetes. */
  predicate Known(key: string, supported: set<string>) {
    var n := Normalize(key);
    n in supported || CSI_PREFIX <= n || STORAGE_PREFIX <= n
  }

  ghost predicate AllKnown(input: map<string, string>, supported: set<string>) {
    forall k | k in input :: Known(k, supported)
  }

  ghost predicate Injective(input: map<string, string>) {
    forall k, l | k in input && l in input && Normalize(k) == Normalize(l) :: k == l
  }

  /** The output has exactly the normalized keys, each with the value of a key it came from. */
  ghost predicate IsNormalized(input: map<string, string>, output: map<string, string>) {
    && (forall k | k in input :: Normalize(k) in output && output[Normalize(k)] == input[k])
    && (forall n | n in output :: exists k :: k in input && Normalize(k) == n)
  }

  /** A normal form: no capital letter, no dash, no underscore. */
  predicate Normal(s: string) {
    forall i | 0 <= i < |s| :: s[i] != '-' && s[i] != '_' && !('A' <= s[i] <= 'Z')
  }

  lemma {:induction false} RemoveEffect(s: string, c: char)
    ensures c !in Remove(s, c)
    ensures forall d | d in Remove(s, c) :: d in s
    ensures c !in s ==> Remove(s, c) == s
  {
    if s != [] {
      RemoveEffect(s[1..], c);
    }
  }

  lemma NormalizeGivesNormal(key: string)
    ensures Normal(Normalize(key))
  {
    var once := Remove(key, '-');
    var twice := Remove(once, '_');
    RemoveEffect(key, '-');
    RemoveEffect(once, '_');
    forall i | 0 <= i < |twice|
      ensures var d := Normalize(key)[i]; d != '-' && d != '_' && !('A' <= d <= 'Z')
    {
      assert twice[i] in twice;
    }
  }

  lemma NormalIsFixed(s: string)
    requires Normal(s)
    ensures Normalize(s) == s
  {
    RemoveEffect(s, '-');
    RemoveEffect(s, '_');
  }

  lemma NormalizeIsIdempotent(key: string)
    ensures Normalize(Normalize(key)) == Normalize(key)
  {
    NormalizeGivesNormal(key);
    NormalIsFixed(Normalize(key));
  }

  /** A key that is not supported is known exactly when its normal form begins as the keys of Kubernetes do. */
  lemma KubernetesKeysAreKnown(key: string, supported: set<string>)
    requires Normalize(key) !in supported
    ensures Known(key, supported) <==>
              "csi.storage.k8s.io" <= Normalize(key) || "storage.kubernetes.io" <= Normalize(key)
  {
  }

  /** The same character, or the same letter in the other case. */
  predicate SameLetter(c: char, d: char) {
    || c == d
    || ('A' <= c <= 'Z' && d as int == c as int + 32)
    || ('A' <= d <= 'Z' && c as int == d as int + 32)
  }

  /** The keys differ only in case, dashes and underscores. */
  predicate Alike(a: string, b: string)
    decreases |a| + |b|
  {
    if a != "" && a[0] in "-_" then Alike(a[1..], b)
    else if b != "" && b[0] in "-_" then Alike(a, b[1..])
    else if a == "" || b == "" then a == b
    else SameLetter(a[0], b[0]) && Alike(a[1..], b[1..])
  }

  lemma {:induction false} RemoveCons(s: string)
    requires s != ""
    ensures Normalize(s) == (if s[0] in "-_" then [] else [Lower(s[0])]) + Normalize(s[1..])
  {
    var once, rest := Remove(s, '-'), Remove(s[1..], '-');
    if s[0] == '-' {
      assert once == rest;
    } else {
      assert once[1..] == rest && once[0] == s[0];
      if s[0] == '_' {
        assert Remove(once, '_') == Remove(rest, '_');
      } else {
        assert Remove(once, '_') == [s[0]] + Remove(rest, '_');
      }
    }
  }

  lemma SameLower(c: char, d: char)
    requires c !in "-_" && d !in "-_"
    ensures Lower(c) == Lower(d) <==> SameLetter(c, d)
  {
  }

  /** Two keys have the same normal form exactly when they differ only in case, dashes and underscores. */
  lemma {:induction false} AlikeExactly(a: string, b: string)
    ensures Normalize(a) == Normalize(b) <==> Alike(a, b)
    decreases |a| + |b|
  {
    if a != "" {
      RemoveCons(a);
    }
    if b != "" {
      RemoveCons(b);
    }
    if a != "" && a[0] in "-_" {
      AlikeExactly(a[1..], b);
    } else if b != "" && b[0] in "-_" {
      AlikeExactly(a, b[1..]);
    } else if a != "" && b != "" {
      AlikeExactly(a[1..], b[1..]);
      SameLower(a[0], b[0]);
      assert Normalize(a)[1..] == Normalize(a[1..]) && Normalize(b)[1..] == Normalize(b[1..]);
    }
  }

  /** Another key has the same normal form. */
  ghost predicate HasTwin(input: map<string, string>, k: string) {
    k in input && exists l :: l in input && l != k && Normalize(l) == Normalize(k)
  }

  // What the loop has found out about the keys it has seen: those not in todo.

  ghost predicate SeenUnknown(
    input: map<string, string>, supported: set<string>, todo: set<string>, unsupported: seq<string>)
  {
    forall k :: k in unsupported <==> k in input && k !in todo && !Known(k, supported)
  }

  ghost predicate SeenValues(input: map<string, string>, todo: set<string>, processed: map<string, string>) {
    && (forall n | n in processed ::
          exists k :: k in input && k !in todo && Normalize(k) == n && processed[n] == input[k])
    && (forall k | k in input && k !in todo :: Normalize(k) in processed)
  }

  ghost predicate SeenTwins(input: map<string, string>, todo: set<string>, duplicate: seq<string>) {
    && (forall k | k in duplicate :: HasTwin(input, k))
    && (duplicate == [] ==>
          forall k, l | k in input && l in input && k !in todo && l !in todo && Normalize(k) == Normalize(l) :: k == l)
  }

  lemma SeeValue(input: map<string, string>, todo: set<string>, processed: map<string, string>, key: string)
    requires SeenValues(input, todo, processed) && key in todo && key in input
    ensures SeenValues(input, todo - {key}, processed[Normalize(key) := input[key]])
  {
    var n, todo', processed' := Normalize(key), todo - {key}, processed[Normalize(key) := input[key]];
    forall m | m in processed'
      ensures exists k :: k in input && k !in todo' && Normalize(k) == m && processed'[m] == input[k]
    {
      if m == n {
        assert key in input && key !in todo';
      } else {
        var k :| k in input && k !in todo && Normalize(k) == m && processed[m] == input[k];
        assert k !in todo';
      }
    }
  }

  lemma SeeTwin(input: map<string, string>, todo: set<string>, processed: map<string, string>, duplicate: seq<string>,
                key: string)
    requires SeenValues(input, todo, processed) && SeenTwins(input, todo, duplicate) && key in todo && key in input
    ensures SeenTwins(input, todo - {key}, if Normalize(key) in processed then duplicate + [key] else duplicate)
  {
    if Normalize(key) in processed {
      var k :| k in input && k !in todo && Normalize(k) == Normalize(key);
      assert HasTwin(input, key);
    }
  }

  /** Succeeds exactly when every key is known and no two share a normal form; unsupported keys are reported first. */
  method NormalizeKeys(input: map<string, string>, supported: set<string>) returns (r: Result)
    ensures r.Ok? <==> AllKnown(input, supported) && Injective(input)
    ensures r.Ok? ==> IsNormalized(input, r.processed)
    ensures r.Unsupported? <==> !AllKnown(input, supported)
    ensures r.Unsupported? ==> forall k :: k in r.keys <==> k in input && !Known(k, supported)
    ensures r.Duplicate? ==> r.keys != [] && forall k | k in r.keys :: HasTwin(input, k)
  {
    var processed: map<string, string> := map[];
    var unsupported, duplicate: seq<string> := [], [];
    var todo := input.Keys;
    while todo != {}
      invariant todo <= input.Keys && SeenUnknown(input, supported, todo, unsupported)
      invariant SeenValues(input, todo, processed) && SeenTwins(input, todo, duplicate)
      decreases todo
    {
      var key :| key in todo;
      SeeTwin(input, todo, processed, duplicate, key);
      SeeValue(input, todo, processed, key);
      todo := todo - {key};
      if !Known(key, supported) {
        unsupported := unsupported + [key];
      }
      var n := Normalize(key);
      if n in processed {
        duplicate := duplicate + [key];
      }
      processed := processed[n := input[key]];
    }
    if unsupported != [] {
      assert unsupported[0] in unsupported;
      return Unsupported(unsupported);
    }
    if duplicate != [] {
      assert HasTwin(input, duplicate[0]);
      return Duplicate(duplicate);
    }
    return Ok(processed);
  }

  /** The output does not depend on the order in which the loop saw the keys. */
  lemma OutputIsUnique(input: map<string, string>, a: map<string, string>, b: map<string, string>)
    requires IsNormalized(input, a) && IsNormalized(input, b)
    ensures a == b
  {
    assert a.Keys == b.Keys;
    forall n | n in a ensures a[n] == b[n] {
      var k :| k in input && Normalize(k) == n;
    }
  }

  /** A second pass over an output accepts it and gives it back. */
  lemma SecondPassChangesNothing(input: map<string, string>, supported: set<string>, output: map<string, string>)
    requires AllKnown(input, supported) && IsNormalized(input, output)
    ensures AllKnown(output, supported) && Injective(output) && IsNormalized(output, output)
  {
    forall n | n in output ensures Normalize(n) == n && Known(n, supported) {
      var k :| k in input && Normalize(k) == n;
      NormalizeIsIdempotent(k);
      assert Known(k, supported);
    }
  }
}
