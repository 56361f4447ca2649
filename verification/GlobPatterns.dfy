/**
 File-name patterns as filepath.Match of Go's standard library reads them, for one path component. The driver
 puts a pod UID into a pattern as it is (pkg/csi_driver/node.go), so a UID may match the marker of another pod.
 A malformed pattern matches nothing.
 */
module GlobPatterns {
  import opened Options

  /** One character of a character class, with the rest of the pattern; there must be a rest. */
  function ClassChar(p: string): (r: Option<(char, string)>)
    ensures r.Some? ==> r.value.1 != "" && |r.value.1| < |p|
  {
    if p == "" || p[0] == '-' || p[0] == ']' then None
    else
      var q := if p[0] == '\\' then p[1..] else p;
      if |q| < 2 then None else Some((q[0], q[1..]))
  }

  /** The ranges of a class up to its closing bracket: whether one holds the character, and the rest of the pattern. */
  function Ranges(p: string, c: char, some: bool, found: bool): (r: Option<(bool, string)>)
    ensures r.Some? ==> |r.value.1| < |p|
    decreases |p|
  {
    if p != "" && p[0] == ']' && some then Some((found, p[1..]))
    else
      var lo := ClassChar(p);
      if lo.None? then None
      else if lo.value.1[0] != '-' then Ranges(lo.value.1, c, true, found || lo.value.0 == c)
      else
        var hi := ClassChar(lo.value.1[1..]);
        if hi.None? then None
        else Ranges(hi.value.1, c, true, found || lo.value.0 <= c <= hi.value.0)
  }

  /** A class, from behind its opening bracket. */
  function Class(p: string, c: char): (r: Option<(bool, string)>)
    ensures r.Some? ==> |r.value.1| < |p|
  {
    if p != "" && p[0] == '^' then
      var r := Ranges(p[1..], c, false, false);
      if r.None? then None else Some((!r.value.0, r.value.1))
    else Ranges(p, c, false, false)
  }

  predicate Match(p: string, s: string)
    decreases |p| + |s|
  {
    if p == "" then s == ""
    else if p[0] == '*' then Match(p[1..], s) || (s != "" && s[0] != '/' && Match(p, s[1..]))
    else if s == "" then false
    else if p[0] == '?' then s[0] != '/' && Match(p[1..], s[1..])
    else if p[0] == '[' then
      var r := Class(p[1..], s[0]);
      r.Some? && r.value.0 && Match(r.value.1, s[1..])
    else if p[0] == '\\' then |p| > 1 && p[1] == s[0] && Match(p[2..], s[1..])
    else p[0] == s[0] && Match(p[1..], s[1..])
  }

  /** filepath.Glob reports an error for a malformed pattern before it looks for files. */
  predicate WellFormed(p: string)
    decreases |p|
  {
    if p == "" then true
    else if p[0] == '[' then var r := Class(p[1..], 'a'); r.Some? && WellFormed(r.value.1)
    else if p[0] == '\\' then |p| > 1 && WellFormed(p[2..])
    else WellFormed(p[1..])
  }

  /** Where a class ends does not depend on the character it is tried on. */
  lemma {:induction false} RangesEnd(p: string, c: char, d: char, some: bool, f: bool, g: bool)
    ensures var (x, y) := (Ranges(p, c, some, f), Ranges(p, d, some, g));
            x.Some? == y.Some? && (x.Some? ==> x.value.1 == y.value.1)
    decreases |p|
  {
    if !(p != "" && p[0] == ']' && some) && ClassChar(p).Some? {
      var lo := ClassChar(p).value;
      if lo.1[0] != '-' {
        RangesEnd(lo.1, c, d, true, f || lo.0 == c, g || lo.0 == d);
      } else if ClassChar(lo.1[1..]).Some? {
        var hi := ClassChar(lo.1[1..]).value;
        RangesEnd(hi.1, c, d, true, f || lo.0 <= c <= hi.0, g || lo.0 <= d <= hi.0);
      }
    }
  }

  lemma ClassEnds(p: string, c: char, d: char)
    ensures Class(p, c).Some? == Class(p, d).Some?
    ensures Class(p, c).Some? ==> Class(p, c).value.1 == Class(p, d).value.1
  {
    RangesEnd(p, c, d, false, false, false);
    if p != "" {
      RangesEnd(p[1..], c, d, false, false, false);
    }
  }

  /** A pattern that matches something is well-formed. */
  lemma {:induction false} MatchIsWellFormed(p: string, s: string)
    requires Match(p, s)
    ensures WellFormed(p)
    decreases |p| + |s|
  {
    if p == "" {
    } else if p[0] == '*' {
      if Match(p[1..], s) {
        MatchIsWellFormed(p[1..], s);
      } else {
        MatchIsWellFormed(p, s[1..]);
      }
    } else if p[0] == '[' {
      ClassEnds(p[1..], s[0], 'a');
      MatchIsWellFormed(Class(p[1..], s[0]).value.1, s[1..]);
    } else if p[0] == '\\' {
      MatchIsWellFormed(p[2..], s[1..]);
    } else {
      MatchIsWellFormed(p[1..], s[1..]);
    }
  }

  /** None of the characters that mean something in a pattern. */
  predicate Literal(p: string) {
    forall i | 0 <= i < |p| :: p[i] !in "*?[\\"
  }

  /** A literal pattern matches itself and nothing else. */
  lemma {:induction false} LiteralMatchesItself(p: string, s: string)
    requires Literal(p)
    ensures Match(p, s) <==> s == p
  {
    if p != "" && s != "" {
      LiteralMatchesItself(p[1..], s[1..]);
      assert s == [s[0]] + s[1..] && p == [p[0]] + p[1..];
    }
  }

  /** A class of one character matches that character, and negated every other. */
  lemma OneCharacterClass(c: char, d: char)
    requires c !in "-]^\\"
    ensures Match(['[', c, ']'], [d]) <==> d == c
    ensures Match(['[', '^', c, ']'], [d]) <==> d != c
  {
    var p, q, e: string := ['[', c, ']'], ['[', '^', c, ']'], [];
    assert p[1..] == [c, ']'] && q[1..] == ['^', c, ']'] && ['^', c, ']'][1..] == [c, ']'];
    assert [c, ']'][1..] == [']'] && [']'][1..] == e && [d][1..] == e;
    assert ClassChar([c, ']']) == Some((c, [']']));
    assert Ranges([c, ']'], d, false, false) == Ranges([']'], d, true, c == d);
    assert Ranges([']'], d, true, c == d) == Some((c == d, e));
  }

  /** Stars and question marks do not match a slash. */
  lemma {:induction false} NoSlashIsMatched(p: string, s: string)
    requires '/' !in p && '[' !in p && Match(p, s)
    ensures '/' !in s
    decreases |p| + |s|
  {
    if p == "" {
    } else if p[0] == '*' {
      if Match(p[1..], s) {
        NoSlashIsMatched(p[1..], s);
      } else {
        NoSlashIsMatched(p, s[1..]);
      }
    } else {
      NoSlashIsMatched(if p[0] == '\\' then p[2..] else p[1..], s[1..]);
    }
  }

  /** A star at the end of a literal matches whatever begins with it. */
  lemma {:induction false} StarMatchesMore(p: string, more: string)
    requires Literal(p) && '/' !in more
    ensures Match(p + "*", p + more)
  {
    if p == "" {
      assert p + "*" == "*" && p + more == more;
      StarMatchesAll(more);
    } else {
      StarMatchesMore(p[1..], more);
      assert (p + "*")[1..] == p[1..] + "*" && (p + more)[1..] == p[1..] + more;
    }
  }

  lemma {:induction false} StarMatchesAll(s: string)
    requires '/' !in s
    ensures Match("*", s)
  {
    if s != "" {
      StarMatchesAll(s[1..]);
    }
  }
}
