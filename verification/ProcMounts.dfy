/**
 The mount table as the driver reads it: the kernel writes one line per mount to /proc/mounts, with some
 characters as octal escapes, and the line is cut into fields at white space
 (vendor/k8s.io/mount-utils/mount_linux.go). Nothing decodes the escapes. A line with more fields than
 expected makes the whole listing fail.
 */
module ProcMounts {
  import opened Options
  import opened Text
  import opened MountPoints

  /** Kernels escape at least blank, tab, line break and backslash, and no character of the separator. */
  predicate Escaping(esc: set<char>) {
    {' ', '\t', '\n', '\\'} <= esc && forall c | c in esc :: c !in SEP
  }

  function OctalDigit(n: nat): char {
    (n % 8 + '0' as int) as char
  }

  function Octal(c: char): string {
    var n := c as int;
    ['\\', OctalDigit(n / 64), OctalDigit(n / 8), OctalDigit(n)]
  }

  /** A name as the kernel writes it. */
  function Escaped(s: string, esc: set<char>): (r: string)
    ensures |s| <= |r|
  {
    if s == [] then [] else (if s[0] in esc then Octal(s[0]) else [s[0]]) + Escaped(s[1..], esc)
  }

  /** The one field that a name makes up; None when white space cuts it into several or leaves nothing. */
  function Field(s: string, esc: set<char>): Option<string> {
    var t := TrimSpace(Escaped(s, esc));
    if t == "" || !SpaceFree(t) then None else Some(t)
  }

  /** The escapes of blank, tab, line break and backslash. */
  lemma EscapesAreOctal()
    ensures Octal(' ') == "\\040" && Octal('\t') == "\\011" && Octal('\n') == "\\012" && Octal('\\') == "\\134"
  {
  }

  // ---- escaping ----

  predicate Unescaped(s: string, esc: set<char>) {
    forall i | 0 <= i < |s| :: s[i] !in esc
  }

  lemma {:induction false} EscapedConcat(a: string, b: string, esc: set<char>)
    ensures Escaped(a + b, esc) == Escaped(a, esc) + Escaped(b, esc)
  {
    if a == [] {
      assert a + b == b;
    } else {
      EscapedConcat(a[1..], b, esc);
      assert (a + b)[0] == a[0] && (a + b)[1..] == a[1..] + b;
      var first, rest := if a[0] in esc then Octal(a[0]) else [a[0]], Escaped(a[1..], esc);
      assert (first + rest) + Escaped(b, esc) == first + (rest + Escaped(b, esc));
    }
  }

  /** Names without escaped characters, and only they, are written as they are. */
  lemma {:induction false} EscapedIsSame(s: string, esc: set<char>)
    ensures Escaped(s, esc) == s <==> Unescaped(s, esc)
    ensures Unescaped(s, esc) || |s| < |Escaped(s, esc)|
  {
    if s != [] {
      EscapedIsSame(s[1..], esc);
      assert s == [s[0]] + s[1..];
    }
  }

  /** Escapes bring in a backslash and digits only. */
  predicate Inert(c: char) {
    c == '\\' || '0' <= c <= '7'
  }

  lemma {:induction false} EscapedChars(s: string, esc: set<char>, c: char)
    requires !Inert(c)
    ensures c in Escaped(s, esc) <==> c in s && c !in esc
  {
    if s != [] {
      EscapedChars(s[1..], esc, c);
      assert s == [s[0]] + s[1..];
    }
  }

  lemma EscapedOfPrint(ip: string, fsname: string, esc: set<char>)
    requires Escaping(esc)
    ensures Escaped(Print(ip, fsname), esc) == Print(Escaped(ip, esc), Escaped(fsname, esc))
  {
    EscapedConcat(ip + SEP, fsname, esc);
    EscapedConcat(ip, SEP, esc);
    EscapedIsSame(SEP, esc);
  }

  // ---- the field of a printed mount point ----

  /** Trimming takes from the front of the address and from the end of the name. */
  lemma TrimOfPrint(ip: string, fsname: string)
    ensures TrimSpace(Print(ip, fsname)) == Print(TrimLeft(ip), TrimRight(fsname))
  {
    assert Print(ip, fsname) == ip + (SEP + fsname);
    TrimLeftStops(ip, SEP + fsname);
    assert TrimLeft(ip) + (SEP + fsname) == (TrimLeft(ip) + SEP) + fsname;
    assert (TrimLeft(ip) + SEP)[|TrimLeft(ip) + SEP| - 1] == '/';
    TrimRightStops(TrimLeft(ip) + SEP, fsname);
  }

  lemma FieldOfPrint(ip: string, fsname: string, esc: set<char>)
    requires Escaping(esc)
    ensures var (i, f) := (TrimLeft(Escaped(ip, esc)), TrimRight(Escaped(fsname, esc)));
            Field(Print(ip, fsname), esc) == if SpaceFree(Print(i, f)) then Some(Print(i, f)) else None
  {
    EscapedOfPrint(ip, fsname, esc);
    TrimOfPrint(Escaped(ip, esc), Escaped(fsname, esc));
  }

  /** The name has no slash, no white space and no character that is escaped. */
  predicate Clean(fsname: string, esc: set<char>) {
    '/' !in fsname && SpaceFree(fsname) && Unescaped(fsname, esc)
  }

  /** Something of the address is left when white space in front of it is trimmed. */
  predicate Stands(ip: string, esc: set<char>) {
    !AllSpace(Escaped(ip, esc))
  }

  lemma SpaceFreeParts(a: string, b: string)
    ensures SpaceFree(Print(a, b)) ==> SpaceFree(a) && SpaceFree(b) && OneLine(a)
  {
    var s := Print(a, b);
    PrintSplits(a, b);
    if SpaceFree(s) {
      forall i | 0 <= i < |a| ensures !IsSpace(a[i]) {
        assert a[i] == s[i];
      }
      forall i | 0 <= i < |b| ensures !IsSpace(b[i]) {
        assert b[i] == s[|a| + |SEP| + i];
      }
    }
  }

  /** A clean name is found. */
  lemma CleanIsFound(ip: string, fsname: string, esc: set<char>)
    requires Escaping(esc) && fsname != "" && Clean(fsname, esc) && Stands(ip, esc)
    requires Field(Print(ip, fsname), esc).Some?
    ensures ExtractFsName(Field(Print(ip, fsname), esc).value) == fsname
  {
    var i := TrimLeft(Escaped(ip, esc));
    FieldOfPrint(ip, fsname, esc);
    EscapedIsSame(fsname, esc);
    TrimLeftToNothing(Escaped(ip, esc));
    SpaceFreeParts(i, fsname);
    ExtractsName(i, fsname);
  }

  /** What is found has no slash and no white space, so a name that is found has none. */
  lemma FoundHasNoSpace(field: string)
    requires SpaceFree(field)
    ensures SpaceFree(ExtractFsName(field)) && '/' !in ExtractFsName(field)
  {
    forall i | 0 <= i < |ExtractFsName(field)| ensures !IsSpace(ExtractFsName(field)[i]) {
      assert ExtractFsName(field)[i] in field;
    }
  }

  /** A name that is found is clean. */
  lemma FoundIsClean(ip: string, fsname: string, esc: set<char>)
    requires Escaping(esc) && fsname != "" && Field(Print(ip, fsname), esc).Some?
    requires ExtractFsName(Field(Print(ip, fsname), esc).value) == fsname
    ensures Clean(fsname, esc) && Stands(ip, esc)
  {
    var i, e := TrimLeft(Escaped(ip, esc)), Escaped(fsname, esc);
    FieldOfPrint(ip, fsname, esc);
    FoundHasNoSpace(Field(Print(ip, fsname), esc).value);
    EscapedIsSpaceFree(fsname, esc);
    EscapedChars(fsname, esc, '/');
    SpaceFreeParts(i, e);
    ExtractsName(i, e);
    EscapedIsSame(fsname, esc);
    TrimLeftToNothing(Escaped(ip, esc));
  }

  lemma EscapedIsSpaceFree(s: string, esc: set<char>)
    requires SpaceFree(s)
    ensures SpaceFree(Escaped(s, esc))
  {
    forall i | 0 <= i < |Escaped(s, esc)| ensures !IsSpace(Escaped(s, esc)[i]) {
      var c := Escaped(s, esc)[i];
      if IsSpace(c) {
        EscapedChars(s, esc, c);
      }
    }
  }

  /**
   The name that was mounted is read off the listed device exactly when it is clean and something of the
   address stands before it. That is whenever the mount can be listed at all.
   */
  lemma ListedShowsName(ip: string, fsname: string, esc: set<char>)
    requires Escaping(esc) && fsname != "" && Field(Print(ip, fsname), esc).Some?
    ensures ExtractFsName(Field(Print(ip, fsname), esc).value) == fsname <==> Clean(fsname, esc) && Stands(ip, esc)
  {
    if Clean(fsname, esc) && Stands(ip, esc) {
      CleanIsFound(ip, fsname, esc);
    }
    if ExtractFsName(Field(Print(ip, fsname), esc).value) == fsname {
      FoundIsClean(ip, fsname, esc);
    }
  }

  /** A text without white space other than escaped characters makes up one field. */
  lemma PlainIsListed(s: string, esc: set<char>)
    requires s != "" && SpaceFree(Escaped(s, esc))
    ensures Field(s, esc) == Some(Escaped(s, esc))
  {
  }
}
