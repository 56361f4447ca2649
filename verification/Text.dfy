/** Splitting, joining and trimming strings, as Go's strings.Split, strings.Join and strings.TrimSpace do. */
module Text {
  /** Always at least one piece; the empty string is one empty piece. */
  function Split(s: string, sep: char): (pieces: seq<string>)
    ensures |pieces| >= 1
  {
    if s == [] then [""] else Push(s[0], sep, Split(s[1..], sep))
  }

  /** Put one more character in front of pieces already split. */
  function Push(c: char, sep: char, pieces: seq<string>): (r: seq<string>)
    requires pieces != []
    ensures r != []
  {
    if c == sep then [""] + pieces else [[c] + pieces[0]] + pieces[1..]
  }

  function Join(pieces: seq<string>, sep: char): string {
    if pieces == [] then ""
    else if |pieces| == 1 then pieces[0]
    else pieces[0] + [sep] + Join(pieces[1..], sep)
  }

  lemma {:induction false} PiecesAreFree(s: string, sep: char)
    ensures forall i | 0 <= i < |Split(s, sep)| :: sep !in Split(s, sep)[i]
  {
    if s != [] {
      PiecesAreFree(s[1..], sep);
    }
  }

  /** One piece exactly when the separator does not occur. */
  lemma {:induction false} SplitFree(s: string, sep: char)
    ensures sep !in s ==> Split(s, sep) == [s]
    ensures sep in s ==> |Split(s, sep)| >= 2
  {
    if s != [] {
      SplitFree(s[1..], sep);
      assert s == [s[0]] + s[1..];
    }
  }

  lemma PushInFront(c: char, sep: char, x: seq<string>, y: seq<string>)
    requires x != []
    ensures Push(c, sep, x + y) == Push(c, sep, x) + y
  {
    assert (x + y)[1..] == x[1..] + y;
  }

  lemma {:induction false} SplitAtSeparator(a: string, sep: char, b: string)
    ensures Split(a + [sep] + b, sep) == Split(a, sep) + Split(b, sep)
  {
    if a == [] {
      assert (a + [sep] + b)[1..] == b;
    } else {
      SplitAtSeparator(a[1..], sep, b);
      assert (a + [sep] + b)[1..] == a[1..] + [sep] + b;
      PushInFront(a[0], sep, Split(a[1..], sep), Split(b, sep));
    }
  }

  lemma {:induction false} JoinOfSplit(s: string, sep: char)
    ensures Join(Split(s, sep), sep) == s
  {
    if s != [] {
      JoinOfSplit(s[1..], sep);
      var rest := Split(s[1..], sep);
      if s[0] == sep {
        assert Split(s, sep)[1..] == rest;
      } else if |rest| > 1 {
        assert Split(s, sep)[1..] == rest[1..];
      }
    }
  }

  lemma {:induction false} SplitOfJoin(pieces: seq<string>, sep: char)
    requires pieces != [] && forall i | 0 <= i < |pieces| :: sep !in pieces[i]
    ensures Split(Join(pieces, sep), sep) == pieces
  {
    SplitFree(pieces[0], sep);
    if |pieces| > 1 {
      SplitOfJoin(pieces[1..], sep);
      SplitAtSeparator(pieces[0], sep, Join(pieces[1..], sep));
    }
  }

  // ---- white space ----

  /** unicode.IsSpace */
  predicate IsSpace(c: char) {
    var n := c as int;
    || 9 <= n <= 13 || n == 0x20 || n == 0x85 || n == 0xA0 || n == 0x1680 || 0x2000 <= n <= 0x200A
    || n == 0x2028 || n == 0x2029 || n == 0x202F || n == 0x205F || n == 0x3000
  }

  /** Blank, tab and line ends are white space; the printing characters of ASCII are not. */
  lemma SpacesOfAscii(c: char)
    ensures c in " \t\n\r" ==> IsSpace(c)
    ensures '!' <= c <= '~' ==> !IsSpace(c)
  {
  }

  predicate AllSpace(s: string) {
    forall i | 0 <= i < |s| :: IsSpace(s[i])
  }

  predicate SpaceFree(s: string) {
    forall i | 0 <= i < |s| :: !IsSpace(s[i])
  }

  function TrimLeft(s: string): (r: string)
    ensures SpaceFree(s) ==> r == s
  {
    if s != [] && IsSpace(s[0]) then TrimLeft(s[1..]) else s
  }

  function TrimRight(s: string): (r: string)
    ensures SpaceFree(s) ==> r == s
  {
    if s != [] && IsSpace(s[|s| - 1]) then TrimRight(s[..|s| - 1]) else s
  }

  function TrimSpace(s: string): string {
    TrimRight(TrimLeft(s))
  }

  lemma {:induction false} TrimLeftStops(a: string, b: string)
    requires b != "" && !IsSpace(b[0])
    ensures TrimLeft(a + b) == TrimLeft(a) + b
  {
    if a == [] {
      assert a + b == b;
    } else if IsSpace(a[0]) {
      TrimLeftStops(a[1..], b);
      assert (a + b)[1..] == a[1..] + b;
    }
  }

  lemma {:induction false} TrimRightStops(a: string, b: string)
    requires a != "" && !IsSpace(a[|a| - 1])
    ensures TrimRight(a + b) == a + TrimRight(b)
  {
    if b == [] {
      assert a + b == a;
    } else if IsSpace(b[|b| - 1]) {
      TrimRightStops(a, b[..|b| - 1]);
      assert (a + b)[..|a + b| - 1] == a + b[..|b| - 1];
    }
  }

  lemma {:induction false} TrimLeftToNothing(s: string)
    ensures TrimLeft(s) == "" <==> AllSpace(s)
  {
    if s != [] && IsSpace(s[0]) {
      TrimLeftToNothing(s[1..]);
      assert s == [s[0]] + s[1..];
    }
  }

  lemma {:induction false} TrimRightToNothing(s: string)
    ensures TrimRight(s) == "" <==> AllSpace(s)
  {
    if s != [] && IsSpace(s[|s| - 1]) {
      TrimRightToNothing(s[..|s| - 1]);
      assert s == s[..|s| - 1] + [s[|s| - 1]];
    }
  }

  /** White space around a text is trimmed, and only that. */
  lemma TrimAround(lead: string, s: string, trail: string)
    requires AllSpace(lead) && AllSpace(trail) && s != "" && !IsSpace(s[0]) && !IsSpace(s[|s| - 1])
    ensures TrimSpace(lead + s + trail) == s
  {
    assert lead + s + trail == lead + (s + trail);
    TrimLeftStops(lead, s + trail);
    TrimLeftToNothing(lead);
    assert TrimLeft(lead + (s + trail)) == s + trail;
    TrimRightStops(s, trail);
    TrimRightToNothing(trail);
    assert s + "" == s;
  }
}
